/** The alerter over whole runs, with pushes that may fail. */
module AlertRuns {
  import opened Common
  import opened Alerts

  /** A scan, or a tick without one (switched off, or no push target). */
  datatype Tick = Scan(cur: seq<Alert>, sends: bool) | Skipped

  function Saved(ts: seq<Tick>): set<string> {
    if ts == [] then {}
    else
      var (before, t) := (Saved(ts[..|ts| - 1]), ts[|ts| - 1]);
      if t.Scan? then Scanned(before, t.cur, t.sends).0 else before
  }

  function DeliveredAt(ts: seq<Tick>, i: nat): Option<Message>
    requires i < |ts|
  {
    if ts[i].Scan? then Scanned(Saved(ts[..i]), ts[i].cur, ts[i].sends).1 else None
  }

  /** A condition of this kind and target is in alarm at tick i. */
  predicate InAlarm(ts: seq<Tick>, i: int, k: Kind, target: string) {
    0 <= i < |ts| && ts[i].Scan? && exists j :: 0 <= j < |ts[i].cur| && ts[i].cur[j].kind == k && ts[i].cur[j].target == target
  }

  predicate Silent(prev: set<string>, cur: seq<Alert>) {
    Fresh(cur, prev) == [] && Recovered(cur, prev) == {}
  }

  /** Tick i was a scan that saved what it saw. */
  predicate Saves(ts: seq<Tick>, i: int) {
    0 <= i < |ts| && ts[i].Scan? && (ts[i].sends || Silent(Saved(ts[..i]), ts[i].cur))
  }

  lemma {:induction false} FreshCounts(cur: seq<Alert>, prev: set<string>, a: Alert)
    ensures multiset(Fresh(cur, prev))[a] == if Fingerprint(a) in prev then 0 else multiset(cur)[a]
  {
    if cur != [] {
      var n := |cur| - 1;
      FreshCounts(cur[..n], prev, a);
      assert cur == cur[..n] + [cur[n]];
      assert multiset(cur) == multiset(cur[..n]) + multiset{cur[n]};
    }
  }

  lemma FreshExactly(cur: seq<Alert>, prev: set<string>, a: Alert)
    ensures a in Fresh(cur, prev) <==> a in cur && Fingerprint(a) !in prev
  {
    FreshCounts(cur, prev, a);
    assert a in Fresh(cur, prev) <==> multiset(Fresh(cur, prev))[a] > 0;
    assert a in cur <==> multiset(cur)[a] > 0;
  }

  lemma MarkedExactly(cur: seq<Alert>, k: Kind, target: string)
    ensures Mark(k, target) in Marks(cur) <==> exists j :: 0 <= j < |cur| && cur[j].kind == k && cur[j].target == target
  {
    if Mark(k, target) in Marks(cur) {
      var j :| 0 <= j < |cur| && Fingerprint(cur[j]) == Mark(k, target);
      MarkIsInjective(cur[j].kind, cur[j].target, k, target);
    }
    if j :| 0 <= j < |cur| && cur[j].kind == k && cur[j].target == target {
      assert Fingerprint(cur[j]) in Marks(cur);
    }
  }

  /** The last scan before tick i that saved its state, -1 if none did. */
  function LastSave(ts: seq<Tick>, i: nat): int
    requires i <= |ts|
  {
    if i == 0 then -1 else if Saves(ts, i - 1) then i - 1 else LastSave(ts, i - 1)
  }

  lemma {:induction false} SavedIsLastSave(ts: seq<Tick>, i: nat)
    requires i <= |ts|
    ensures -1 <= LastSave(ts, i) < i
    ensures LastSave(ts, i) >= 0 ==> ts[LastSave(ts, i)].Scan?
    ensures Saved(ts[..i]) == if LastSave(ts, i) < 0 then {} else Marks(ts[LastSave(ts, i)].cur)
  {
    if i > 0 {
      SavedIsLastSave(ts, i - 1);
      assert ts[..i][..i - 1] == ts[..i - 1];
    }
  }

  lemma SavedInAlarm(ts: seq<Tick>, i: nat, k: Kind, target: string)
    requires i <= |ts|
    ensures Mark(k, target) in Saved(ts[..i]) <==> InAlarm(ts, LastSave(ts, i), k, target)
  {
    SavedIsLastSave(ts, i);
    var j := LastSave(ts, i);
    if j >= 0 {
      MarkedExactly(ts[j].cur, k, target);
    }
  }

  predicate Sends(ts: seq<Tick>, i: int) {
    0 <= i < |ts| && ts[i].Scan? && ts[i].sends
  }

  /** The condition is in alarm at tick i and was not at the last scan before that saved. */
  predicate Rises(ts: seq<Tick>, i: nat, k: Kind, target: string)
    requires i < |ts|
  {
    InAlarm(ts, i, k, target) && !InAlarm(ts, LastSave(ts, i), k, target)
  }

  /** The engine was in alarm at the last scan before that saved and is not at the scan i. */
  predicate Falls(ts: seq<Tick>, i: nat, engine: string)
    requires i < |ts|
  {
    ts[i].Scan? && InAlarm(ts, LastSave(ts, i), KindEngine, engine) && !InAlarm(ts, i, KindEngine, engine)
  }

  lemma RecoveredExactly(ts: seq<Tick>, i: nat, engine: string)
    requires i < |ts| && ts[i].Scan?
    ensures engine in Recovered(ts[i].cur, Saved(ts[..i])) <==> Falls(ts, i, engine)
  {
    var prev, cur := Saved(ts[..i]), ts[i].cur;
    var fp := Mark(KindEngine, engine);
    SavedInAlarm(ts, i, KindEngine, engine);
    MarkedExactly(cur, KindEngine, engine);
    EnginePrefixMeansEngine(KindEngine, engine);
    assert fp[|ENGINE_PREFIX|..] == engine;
    if engine in Recovered(cur, prev) {
      var g :| g in prev && g !in Marks(cur) && ENGINE_PREFIX <= g && g[|ENGINE_PREFIX|..] == engine;
      assert g == ENGINE_PREFIX + engine;
      assert g == fp;
    }
  }

  lemma SilentExactly(ts: seq<Tick>, i: nat)
    requires i < |ts| && ts[i].Scan?
    ensures Silent(Saved(ts[..i]), ts[i].cur)
       <==> (forall k, target :: !Rises(ts, i, k, target)) && (forall engine :: !Falls(ts, i, engine))
  {
    var prev, cur := Saved(ts[..i]), ts[i].cur;
    if Fresh(cur, prev) != [] {
      var a := Fresh(cur, prev)[0];
      FreshExactly(cur, prev, a);
      SavedInAlarm(ts, i, a.kind, a.target);
      assert Rises(ts, i, a.kind, a.target);
    }
    if engine :| engine in Recovered(cur, prev) {
      RecoveredExactly(ts, i, engine);
    }
    if k, target :| Rises(ts, i, k, target) {
      var j :| 0 <= j < |cur| && cur[j].kind == k && cur[j].target == target;
      FreshExactly(cur, prev, cur[j]);
      SavedInAlarm(ts, i, k, target);
    }
    if engine :| Falls(ts, i, engine) {
      RecoveredExactly(ts, i, engine);
    }
  }

  /** Something is pushed exactly at a scan whose push goes through and at which a condition
      came into alarm, or an engine left it, since the last scan that saved. And a scan saves
      what it saw unless something changed and the push failed. */
  lemma PushesExactly(ts: seq<Tick>, i: nat)
    requires i < |ts|
    ensures DeliveredAt(ts, i).Some?
       <==> Sends(ts, i) && ((exists k, target :: Rises(ts, i, k, target)) || exists engine :: Falls(ts, i, engine))
    ensures Saves(ts, i)
       <==> ts[i].Scan? && (Sends(ts, i) || !((exists k, target :: Rises(ts, i, k, target)) || exists engine :: Falls(ts, i, engine)))
  {
    if ts[i].Scan? {
      SilentExactly(ts, i);
    }
  }

  /** Alerts are edge-triggered: a delivered message carries exactly those of the alerts
      just found, as often as found, whose condition was not in alarm at the last scan that
      saved, however many pushes failed in between. */
  lemma DeliversRisingEdges(ts: seq<Tick>, i: nat, a: Alert)
    requires i < |ts| && ts[i].Scan?
    ensures DeliveredAt(ts, i).Some? ==>
              multiset(DeliveredAt(ts, i).value.alerts)[a]
              == if InAlarm(ts, LastSave(ts, i), a.kind, a.target) then 0 else multiset(ts[i].cur)[a]
    ensures DeliveredAt(ts, i).Some? && a in DeliveredAt(ts, i).value.alerts
       <==> Sends(ts, i) && a in ts[i].cur && !InAlarm(ts, LastSave(ts, i), a.kind, a.target)
  {
    FreshCounts(ts[i].cur, Saved(ts[..i]), a);
    FreshExactly(ts[i].cur, Saved(ts[..i]), a);
    SavedInAlarm(ts, i, a.kind, a.target);
  }

  /** An engine's recovery is delivered exactly at its falling edge, with or without anything
      else to tell. */
  lemma DeliversFallingEdges(ts: seq<Tick>, i: nat, engine: string)
    requires i < |ts|
    ensures DeliveredAt(ts, i).Some? && engine in DeliveredAt(ts, i).value.recovered <==> Sends(ts, i) && Falls(ts, i, engine)
  {
    if ts[i].Scan? {
      RecoveredExactly(ts, i, engine);
    }
  }

  /** Delivered alerts keep the order in which they were found. */
  lemma {:induction false} FreshKeepsOrder(cur: seq<Alert>, prev: set<string>) returns (at: seq<nat>)
    ensures |at| == |Fresh(cur, prev)|
    ensures forall k :: 0 <= k < |at| ==> at[k] < |cur| && Fresh(cur, prev)[k] == cur[at[k]]
    ensures forall k, m :: 0 <= k < m < |at| ==> at[k] < at[m]
  {
    at := [];
    if cur != [] {
      var n := |cur| - 1;
      at := FreshKeepsOrder(cur[..n], prev);
      if Fingerprint(cur[n]) !in prev {
        at := at + [n];
      }
    }
  }

  predicate Delivers(ts: seq<Tick>, i: int, k: Kind, target: string) {
    0 <= i < |ts| && DeliveredAt(ts, i).Some? &&
    exists j :: 0 <= j < |DeliveredAt(ts, i).value.alerts| && DeliveredAt(ts, i).value.alerts[j].kind == k
                && DeliveredAt(ts, i).value.alerts[j].target == target
  }

  lemma FreshByMark(cur: seq<Alert>, prev: set<string>, k: Kind, target: string)
    requires exists j :: 0 <= j < |cur| && cur[j].kind == k && cur[j].target == target
    ensures (exists n :: 0 <= n < |Fresh(cur, prev)| && Fresh(cur, prev)[n].kind == k && Fresh(cur, prev)[n].target == target)
       <==> Mark(k, target) !in prev
  {
    var (found, j) := (Fresh(cur, prev), FindAlert(cur, k, target));
    FreshExactly(cur, prev, cur[j]);
    forall n | 0 <= n < |found| && found[n].kind == k && found[n].target == target
      ensures Mark(k, target) !in prev
    {
      FreshExactly(cur, prev, found[n]);
      assert found[n] in found;
    }
  }

  ghost function FindAlert(cur: seq<Alert>, k: Kind, target: string): (j: nat)
    requires exists j :: 0 <= j < |cur| && cur[j].kind == k && cur[j].target == target
    ensures j < |cur| && cur[j].kind == k && cur[j].target == target
  {
    var j :| 0 <= j < |cur| && cur[j].kind == k && cur[j].target == target;
    j
  }

  lemma DeliversExactly(ts: seq<Tick>, i: nat, k: Kind, target: string)
    requires i < |ts| && InAlarm(ts, i, k, target)
    ensures Delivers(ts, i, k, target) <==> Sends(ts, i) && Mark(k, target) !in Saved(ts[..i])
  {
    FreshByMark(ts[i].cur, Saved(ts[..i]), k, target);
  }

  lemma StaysSaved(ts: seq<Tick>, i: nat, k: Kind, target: string)
    requires i < |ts| && InAlarm(ts, i, k, target)
    ensures Mark(k, target) in Saved(ts[..i + 1]) <==> Mark(k, target) in Saved(ts[..i]) || Sends(ts, i)
  {
    var prev, cur := Saved(ts[..i]), ts[i].cur;
    assert ts[..i + 1][..i] == ts[..i];
    MarkedExactly(cur, k, target);
    FreshByMark(cur, prev, k, target);
  }

  /** A standing condition is pushed once: from the scan where it appears, the message
      that carries it is the first one that gets through, and no later one. */
  lemma {:induction false} PushedOnce(ts: seq<Tick>, from: nat, i: nat, k: Kind, target: string)
    requires from <= i < |ts|
    requires forall j :: from <= j <= i ==> InAlarm(ts, j, k, target)
    requires !InAlarm(ts, LastSave(ts, from), k, target)
    ensures Delivers(ts, i, k, target) <==> Sends(ts, i) && forall j :: from <= j < i ==> !Sends(ts, j)
  {
    StandingSaved(ts, from, i, k, target);
    DeliversExactly(ts, i, k, target);
  }

  lemma {:induction false} StandingSaved(ts: seq<Tick>, from: nat, i: nat, k: Kind, target: string)
    requires from <= i <= |ts|
    requires forall j :: from <= j < i ==> InAlarm(ts, j, k, target)
    requires !InAlarm(ts, LastSave(ts, from), k, target)
    ensures Mark(k, target) in Saved(ts[..i]) <==> exists j :: from <= j < i && Sends(ts, j)
  {
    if i == from {
      SavedInAlarm(ts, i, k, target);
    } else {
      StandingSaved(ts, from, i - 1, k, target);
      StaysSaved(ts, i - 1, k, target);
      assert (exists j :: from <= j < i && Sends(ts, j)) <==> (exists j :: from <= j < i - 1 && Sends(ts, j)) || Sends(ts, i - 1);
    }
  }

  // ---- The disguise checks ----

  function FailsAfter(rounds: seq<seq<Probe>>): map<string, nat> {
    if rounds == [] then map[] else Counted(FailsAfter(rounds[..|rounds| - 1]), rounds[|rounds| - 1])
  }

  /** How many rounds in a row, up to the last, the site was probed and failed. */
  function FailRun(rounds: seq<seq<Probe>>, sni: string): nat {
    if rounds == [] || Outcome(rounds[|rounds| - 1], sni) != Some(true) then 0
    else FailRun(rounds[..|rounds| - 1], sni) + 1
  }

  lemma {:induction false} OutcomeOfSites(probes: seq<Probe>, sni: string)
    ensures Outcome(probes, sni).Some? <==> sni in Sites(probes)
  {
    if probes != [] {
      var n := |probes| - 1;
      OutcomeOfSites(probes[..n], sni);
      assert Sites(probes) == Sites(probes[..n]) + {probes[n].sni} by {
        assert forall j :: 0 <= j < n ==> probes[..n][j] == probes[j];
      }
    }
  }

  lemma {:induction false} CountersAreRuns(rounds: seq<seq<Probe>>, sni: string)
    ensures FailsOf(FailsAfter(rounds), sni) == FailRun(rounds, sni)
  {
    if rounds != [] {
      var n := |rounds| - 1;
      CountersAreRuns(rounds[..n], sni);
      OutcomeOfSites(rounds[n], sni);
    }
  }

  predicate FailedTwice(rounds: seq<seq<Probe>>, sni: string) {
    && |rounds| >= 2
    && Outcome(rounds[|rounds| - 1], sni) == Some(true)
    && Outcome(rounds[|rounds| - 2], sni) == Some(true)
  }

  lemma {:induction false} AlarmingIsTwoFailures(rounds: seq<seq<Probe>>, sni: string)
    ensures sni in Alarming(FailsAfter(rounds)) <==> FailedTwice(rounds, sni)
  {
    CountersAreRuns(rounds, sni);
    if |rounds| >= 2 {
      var before := rounds[..|rounds| - 1];
      assert before[|before| - 1] == rounds[|rounds| - 2];
    }
  }

  /** One call of the check: when, and what listing and probing would find then. */
  datatype Call = Call(now: int, listing: Option<seq<Probe>>)

  function CheckAfter(calls: seq<Call>): Check {
    if calls == [] then Check(Never, map[])
    else
      var c := calls[|calls| - 1];
      Checked(CheckAfter(calls[..|calls| - 1]), c.now, c.listing).0
  }

  /** The last call was due for a round of probes. */
  predicate LastIsDue(calls: seq<Call>)
    requires calls != []
  {
    Due(CheckAfter(calls[..|calls| - 1]), calls[|calls| - 1].now)
  }

  /** What the last call reports. */
  function Reported(calls: seq<Call>): set<string>
    requires calls != []
  {
    var c := calls[|calls| - 1];
    Checked(CheckAfter(calls[..|calls| - 1]), c.now, c.listing).1
  }

  /** The rounds of probes that were really made. */
  function Rounds(calls: seq<Call>): seq<seq<Probe>> {
    if calls == [] then []
    else
      var (before, c) := (Rounds(calls[..|calls| - 1]), calls[|calls| - 1]);
      if LastIsDue(calls) && c.listing.Some? then before + [c.listing.value] else before
  }

  lemma {:induction false} FailsCountRounds(calls: seq<Call>)
    ensures CheckAfter(calls).fails == FailsAfter(Rounds(calls))
  {
    if calls != [] {
      var n := |calls| - 1;
      FailsCountRounds(calls[..n]);
      assert (Rounds(calls[..n]) + [calls[n].listing.GetOr([])])[..|Rounds(calls[..n])|] == Rounds(calls[..n]);
    }
  }

  predicate ListingFailed(calls: seq<Call>)
    requires calls != []
  {
    LastIsDue(calls) && calls[|calls| - 1].listing.None?
  }

  /** Over any run of calls a disguise site is reported exactly when its last two rounds
      both failed, whether or not this call probed; except that a call that is due but
      cannot list the inbounds reports nothing at all. */
  lemma AlarmsAfterTwoFailures(calls: seq<Call>, sni: string)
    requires calls != []
    ensures sni in Reported(calls) <==> !ListingFailed(calls) && FailedTwice(Rounds(calls), sni)
  {
    FailsCountRounds(calls);
    AlarmingIsTwoFailures(Rounds(calls), sni);
  }

  /** The call after the first i was due for a round of probes. */
  predicate DueAt(calls: seq<Call>, i: int) {
    0 <= i < |calls| && LastIsDue(calls[..i + 1])
  }

  /** The last of the first n calls to be due was at the stamp. */
  ghost predicate LastDueAt(calls: seq<Call>, n: nat, last: Stamp)
    requires n <= |calls|
  {
    && (last.At? ==> exists i :: 0 <= i < n && DueAt(calls, i) && calls[i].now == last.t)
    && (forall i :: 0 <= i < n && DueAt(calls, i) ==> last.At? && calls[i].now <= last.t)
  }

  lemma LastDueStep(calls: seq<Call>, n: nat, last: Stamp)
    requires n < |calls| && LastDueAt(calls, n, last)
    requires forall i :: 0 <= i < n ==> calls[i].now <= calls[n].now
    ensures LastDueAt(calls, n + 1, if DueAt(calls, n) then At(calls[n].now) else last)
  {
  }

  lemma CheckedStep(calls: seq<Call>, n: nat)
    requires n < |calls|
    ensures DueAt(calls, n) <==> Due(CheckAfter(calls[..n]), calls[n].now)
    ensures CheckAfter(calls[..n + 1]).checked == if DueAt(calls, n) then At(calls[n].now) else CheckAfter(calls[..n]).checked
  {
    assert calls[..n + 1][..n] == calls[..n];
  }

  lemma {:induction false} CheckedIsLastDue(calls: seq<Call>, n: nat)
    requires forall i, j :: 0 <= i < j < |calls| ==> calls[i].now <= calls[j].now
    requires n <= |calls|
    ensures LastDueAt(calls, n, CheckAfter(calls[..n]).checked)
  {
    if n > 0 {
      CheckedIsLastDue(calls, n - 1);
      CheckedStep(calls, n - 1);
      LastDueStep(calls, n - 1, CheckAfter(calls[..n - 1]).checked);
    }
  }

  /** The disguise sites are probed exactly as often as half an hour allows: a call is due if
      and only if no due call lies less than thirty minutes before it. */
  lemma DueExactly(calls: seq<Call>, j: nat)
    requires forall i, k :: 0 <= i < k < |calls| ==> calls[i].now <= calls[k].now
    requires j < |calls|
    ensures DueAt(calls, j) <==> forall i :: 0 <= i < j && DueAt(calls, i) ==> calls[j].now - calls[i].now >= 30 * MINUTE
  {
    CheckedIsLastDue(calls, j);
    CheckedStep(calls, j);
  }

  /** So a failed listing drops a standing alarm from the report, and the next call
      reports it again, although nothing about the site changed. */
  lemma FailedListingDropsAlarm(calls: seq<Call>, sni: string, later: int)
    requires calls != [] && sni in Reported(calls) && CheckAfter(calls).checked.At?
    requires later >= CheckAfter(calls).checked.t + CHECK_EVERY
    ensures var lost := calls + [Call(later, None)];
            Reported(lost) == {} && sni in Reported(lost + [Call(later, None)])
  {
    var lost := calls + [Call(later, None)];
    var next := lost + [Call(later, None)];
    assert lost[..|calls|] == calls && next[..|lost|] == lost;
  }

  /** An alarm missing from one scan only is pushed twice. */
  lemma GapPushesTwice(k: Kind, target: string, pct: int, days: int)
    requires k != KindEngine
    ensures var a := Alert(k, target, pct, days);
            var ts := [Scan([a], true), Scan([], true), Scan([a], true)];
            DeliveredAt(ts, 0) == Some(Message([a], {})) && DeliveredAt(ts, 1) == None
            && DeliveredAt(ts, 2) == Some(Message([a], {}))
  {
    var a := Alert(k, target, pct, days);
    var ts := [Scan([a], true), Scan([], true), Scan([a], true)];
    EnginePrefixMeansEngine(k, target);
    assert [a][..0] == [] && Fresh([a], {}) == [a];
    assert Marks([a]) == {Mark(k, target)};
    assert ts[..0] == [] && ts[..1] == [ts[0]] && ts[..2] == [ts[0], ts[1]];
    assert ts[..1][..0] == [] && ts[..2][..1] == ts[..1];
    assert Saved(ts[..1]) == Marks([a]);
    assert Recovered([], Marks([a])) == {} && Fresh([], Marks([a])) == [];
    assert Saved(ts[..2]) == {};
    assert Recovered([a], {}) == {};
    assert DeliveredAt(ts, 0) == Scanned({}, [a], true).1;
    assert DeliveredAt(ts, 1) == Scanned(Marks([a]), [], true).1;
    assert DeliveredAt(ts, 2) == Scanned({}, [a], true).1;
  }
}
