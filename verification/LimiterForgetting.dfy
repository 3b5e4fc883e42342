/** How the forgetting limiter compares with one that remembers everything. */
module LimiterForgetting {
  import opened Common
  import opened Limiter
  import opened LimiterRuns

  /** The limiter without its sweep. */
  function KeepStep(m: Memory, e: Event): (Memory, Verdict) {
    var (st, v) := Decide(MemoryOf(m, e.key, e.now), e.now, e.round, e.policy);
    (m[e.key := st], v)
  }

  function KeepAfter(es: seq<Event>): Memory {
    if es == [] then map[] else KeepStep(KeepAfter(es[..|es| - 1]), es[|es| - 1]).0
  }

  function KeepVerdictAt(es: seq<Event>, i: nat): Verdict
    requires i < |es|
  {
    KeepStep(KeepAfter(es[..i]), es[i]).1
  }

  function Held(m: Memory, key: string): LimitState {
    if key in m then m[key] else BLANK
  }

  ghost predicate Stale(s: Stamp, now: int) {
    s.At? ==> now - s.t > FORGET_AFTER
  }

  ghost predicate Dated(m: Memory, key: string, now: int) {
    key in m ==>
      && m[key].touched <= now
      && (m[key].lastAuto.At? ==> m[key].lastAuto.t <= m[key].touched)
      && (m[key].lastManual.At? ==> m[key].lastManual.t <= m[key].touched)
      && (m[key].lastManual.Never? ==> NoManual(m[key]))
  }

  ghost predicate AutoTie(f: Memory, k: Memory, key: string, now: int) {
    && Dated(f, key, now) && Dated(k, key, now)
    && (key in f ==> key in k && f[key].touched == k[key].touched)
    && (Held(f, key).lastAuto == Held(k, key).lastAuto
        || (Held(f, key).lastAuto.Never? && Stale(Held(k, key).lastAuto, now)))
  }

  ghost predicate SameManual(f: LimitState, k: LimitState, now: int) {
    && f.lastManual == k.lastManual && f.lastWinner == k.lastWinner && f.sameRounds == k.sameRounds
    && (f.coolingUntil == k.coolingUntil || (f.coolingUntil.Never? && Common.After(now, k.coolingUntil)))
  }

  ghost predicate NoManual(st: LimitState) {
    st.lastManual.Never? && st.lastWinner == "" && st.sameRounds == 0 && st.coolingUntil.Never?
  }

  ghost predicate ManualTie(f: Memory, k: Memory, key: string, now: int) {
    || SameManual(Held(f, key), Held(k, key), now)
    || (NoManual(Held(f, key)) && Stale(Held(k, key).lastManual, now) && Common.After(now, Held(k, key).coolingUntil))
  }

  /** An accepted manual round that continues a run of equal winners which only the
      limiter that remembers everything still has (k), under a policy for which the
      length of the run matters. */
  ghost predicate Cuts(f: LimitState, k: LimitState, e: Event, key: string) {
    && e.key == key && e.round.manual && Decide(f, e.now, e.round, e.policy).1.accept
    && f.lastManual.Never? && k.lastManual.At? && e.round.winner != "" && e.round.winner == k.lastWinner && k.sameRounds >= 1
    && (e.policy.sameRounds > 1 || e.policy.cooldownSec == 0)
  }

  ghost predicate CutAt(pre: seq<Event>, e: Event, key: string) {
    Cuts(Held(Swept(LimiterRuns.After(pre), e.now), key), Held(KeepAfter(pre), key), e, key)
  }

  ghost predicate Uncut(es: seq<Event>, key: string) {
    es == [] || (Uncut(es[..|es| - 1], key) && !CutAt(es[..|es| - 1], es[|es| - 1], key))
  }

  lemma SweepTies(f: Memory, k: Memory, key: string, before: int, now: int)
    requires before <= now && AutoTie(f, k, key, before)
    ensures AutoTie(Swept(f, now), k, key, now)
    ensures ManualTie(f, k, key, before) ==> ManualTie(Swept(f, now), k, key, now)
  {
  }

  /** One round on tied memories, sweep already done. */
  lemma RoundTies(f: Memory, k: Memory, e: Event, key: string)
    requires AutoTie(f, k, key, e.now) && e.policy.Valid()
    ensures var (f', v) := KeepStep(f, e);
            var (k', w) := KeepStep(k, e);
            && AutoTie(f', k', key, e.now)
            && (e.key == key && !e.round.manual ==> v == w)
  {
    if e.key == key {
      if e.round.manual {
        ManualKeepsAutoTie(f, k, e);
      } else {
        AutoRoundTies(f, k, e);
      }
    }
  }

  lemma AutoRoundTies(f: Memory, k: Memory, e: Event)
    requires AutoTie(f, k, e.key, e.now) && !e.round.manual
    ensures KeepStep(f, e).1 == KeepStep(k, e).1
    ensures AutoTie(KeepStep(f, e).0, KeepStep(k, e).0, e.key, e.now)
  {
  }

  lemma ManualKeepsAutoTie(f: Memory, k: Memory, e: Event)
    requires AutoTie(f, k, e.key, e.now) && e.round.manual
    ensures AutoTie(KeepStep(f, e).0, KeepStep(k, e).0, e.key, e.now)
  {
    ManualKeepsDates(f, e);
    ManualKeepsDates(k, e);
  }

  lemma ManualKeepsDates(m: Memory, e: Event)
    requires Dated(m, e.key, e.now) && e.round.manual
    ensures Dated(KeepStep(m, e).0, e.key, e.now)
    ensures Held(KeepStep(m, e).0, e.key).lastAuto == Held(m, e.key).lastAuto
  {
  }

  /** The manual half: verdicts agree, and memories tie again exactly when the round
      does not continue a forgotten run of winners. */
  lemma ManualRoundTies(f: Memory, k: Memory, e: Event, key: string)
    requires AutoTie(f, k, key, e.now) && ManualTie(f, k, key, e.now) && e.policy.Valid()
    requires Held(k, key).sameRounds >= 0
    ensures var (f', v) := KeepStep(f, e);
            var (k', w) := KeepStep(k, e);
            var cut := Cuts(Held(f, key), Held(k, key), e, key);
            && (e.key == key ==> v.accept == w.accept && v.reason == w.reason && (!cut ==> v == w))
            && (!cut <==> ManualTie(f', k', key, e.now))
  {
    if e.key == key && e.round.manual {
      if NoManual(Held(f, key)) {
        ForgottenRoundTies(f, k, e);
      } else {
        RememberedRoundTies(f, k, e);
      }
    }
  }

  lemma ForgottenRoundTies(f: Memory, k: Memory, e: Event)
    requires ManualTie(f, k, e.key, e.now) && e.policy.Valid() && e.round.manual
    requires NoManual(Held(f, e.key)) && Held(k, e.key).sameRounds >= 0
    requires Dated(k, e.key, e.now)
    ensures var (f', v) := KeepStep(f, e);
            var (k', w) := KeepStep(k, e);
            var cut := Cuts(Held(f, e.key), Held(k, e.key), e, e.key);
            && v.accept == w.accept && v.reason == w.reason && (!cut ==> v == w)
            && (!cut <==> ManualTie(f', k', e.key, e.now))
  {
  }

  lemma RememberedRoundTies(f: Memory, k: Memory, e: Event)
    requires ManualTie(f, k, e.key, e.now) && e.policy.Valid() && e.round.manual
    requires !NoManual(Held(f, e.key)) && Held(k, e.key).sameRounds >= 0
    requires Dated(f, e.key, e.now)
    ensures KeepStep(f, e).1 == KeepStep(k, e).1
    ensures !Cuts(Held(f, e.key), Held(k, e.key), e, e.key)
    ensures ManualTie(KeepStep(f, e).0, KeepStep(k, e).0, e.key, e.now)
  {
  }

  lemma StepTies(f: Memory, k: Memory, e: Event, key: string, uncut: bool)
    requires AutoTie(f, k, key, e.now) && e.policy.Valid() && Held(k, key).sameRounds >= 0
    requires uncut ==> ManualTie(f, k, key, e.now)
    ensures var f', k' := KeepStep(f, e).0, KeepStep(k, e).0;
            && AutoTie(f', k', key, e.now) && Held(k', key).sameRounds >= 0
            && (uncut && !Cuts(Held(f, key), Held(k, key), e, key) ==> ManualTie(f', k', key, e.now))
  {
    RoundTies(f, k, e, key);
    if uncut {
      ManualRoundTies(f, k, e, key);
    }
  }

  lemma {:induction false} RunTies(es: seq<Event>, key: string)
    requires ValidRun(es) && es != []
    ensures var f, k, now := LimiterRuns.After(es), KeepAfter(es), es[|es| - 1].now;
            && AutoTie(f, k, key, now) && Held(k, key).sameRounds >= 0
            && (Uncut(es, key) ==> ManualTie(f, k, key, now))
  {
    var n := |es| - 1;
    var pre, e := es[..n], es[n];
    var f, k := LimiterRuns.After(pre), KeepAfter(pre);
    if n > 0 {
      RunTies(pre, key);
      SweepTies(f, k, key, es[n - 1].now, e.now);
    }
    StepTies(Swept(f, e.now), k, e, key, Uncut(pre, key));
  }

  lemma TiedBefore(es: seq<Event>, key: string, i: nat)
    requires ValidRun(es) && i < |es|
    ensures var f, k := Swept(LimiterRuns.After(es[..i]), es[i].now), KeepAfter(es[..i]);
            && AutoTie(f, k, key, es[i].now) && Held(k, key).sameRounds >= 0
            && (Uncut(es[..i], key) ==> ManualTie(f, k, key, es[i].now))
  {
    if i > 0 {
      RunTies(es[..i], key);
      SweepTies(LimiterRuns.After(es[..i]), KeepAfter(es[..i]), key, es[i - 1].now, es[i].now);
    }
  }

  /** On every run, forgetting never changes a verdict on an automatic round. */
  lemma AutoVerdictsAgree(es: seq<Event>, i: nat)
    requires ValidRun(es) && i < |es| && !es[i].round.manual
    ensures VerdictAt(es, i) == KeepVerdictAt(es, i)
  {
    TiedBefore(es, es[i].key, i);
    RoundTies(Swept(LimiterRuns.After(es[..i]), es[i].now), KeepAfter(es[..i]), es[i], es[i].key);
  }

  /** Up to and including the first round that continues a forgotten run of winners,
      manual rounds are accepted and refused alike, for the same reasons; before it
      the whole verdict is the same. */
  lemma ManualVerdictsAgree(es: seq<Event>, i: nat)
    requires ValidRun(es) && i < |es| && Uncut(es[..i], es[i].key)
    ensures var v, w := VerdictAt(es, i), KeepVerdictAt(es, i);
            && v.accept == w.accept && v.reason == w.reason
            && (!CutAt(es[..i], es[i], es[i].key) ==> v == w)
  {
    TiedBefore(es, es[i].key, i);
    ManualRoundTies(Swept(LimiterRuns.After(es[..i]), es[i].now), KeepAfter(es[..i]), es[i], es[i].key);
  }

  lemma PrefixIsValid(es: seq<Event>, e: Event)
    requires ValidRun(es + [e])
    ensures ValidRun(es) && e.policy.Valid() && (es != [] ==> es[|es| - 1].now <= e.now)
  {
    var all := es + [e];
    assert all[|es|] == e && forall i :: 0 <= i < |es| ==> all[i] == es[i];
  }

  lemma SweptRoundAgrees(m: Memory, e: Event, before: int)
    requires Dated(m, e.key, before) && before <= e.now && e.policy.Valid()
    ensures var v, w := KeepStep(Swept(m, e.now), e).1, KeepStep(m, e).1;
            v.accept == w.accept && v.reason == w.reason
  {
  }

  /** Whatever a run has led to, sweeping before this very check changes neither
      whether the round is accepted nor why. */
  lemma SweepIsInvisible(es: seq<Event>, e: Event)
    requires ValidRun(es + [e])
    ensures var v, w := StepOf(LimiterRuns.After(es), e).1, KeepStep(LimiterRuns.After(es), e).1;
            v.accept == w.accept && v.reason == w.reason
  {
    PrefixIsValid(es, e);
    if es != [] {
      RunTies(es, e.key);
      SweptRoundAgrees(LimiterRuns.After(es), e, es[|es| - 1].now);
    }
  }

  /** The round after e on the same key: the same winner half a minute later, under a policy
      that announces at the third in a row. */
  function NextRound(e: Event): Event {
    Event(e.now + 30 * SECOND, e.key, Round(true, e.round.winner, true), Policy(30, 3, 60))
  }

  lemma CutShowsNext(f: Memory, k: Memory, e: Event)
    requires AutoTie(f, k, e.key, e.now) && ManualTie(f, k, e.key, e.now) && e.policy.Valid()
    requires Cuts(Held(f, e.key), Held(k, e.key), e, e.key)
    ensures var f', k', n := KeepStep(f, e).0, KeepStep(k, e).0, NextRound(e);
            KeepStep(f, e).1 != KeepStep(k, e).1 || KeepStep(Swept(f', n.now), n).1 != KeepStep(k', n).1
  {
    var (f', k', n) := (KeepStep(f, e).0, KeepStep(k, e).0, NextRound(e));
    if KeepStep(f, e).1 == KeepStep(k, e).1 {
      assert e.key in Swept(f', n.now);
      assert f'[e.key].sameRounds == 1 && k'[e.key].sameRounds >= 2;
      assert f'[e.key].lastManual == k'[e.key].lastManual == At(e.now);
    }
  }

  lemma TwoMore(es: seq<Event>, e: Event, n: Event)
    requires ValidRun(es + [e]) && e.now <= n.now && n.policy.Valid()
    ensures var all := es + [e, n];
            && ValidRun(all) && all[..|es|] == es && all[|es|] == e && all[|es| + 1] == n
            && LimiterRuns.After(all[..|es| + 1]) == StepOf(LimiterRuns.After(es), e).0
            && KeepAfter(all[..|es| + 1]) == KeepStep(KeepAfter(es), e).0
  {
    var (some, all) := (es + [e], es + [e, n]);
    assert all[..|es| + 1] == some && some[..|es|] == es && some[|es|] == e;
    forall i, j | 0 <= i < j < |all| ensures all[i].now <= all[j].now {
      assert i <= |es| ==> all[i] == some[i];
      assert j <= |es| ==> all[j] == some[j];
    }
    forall i | 0 <= i < |all| ensures all[i].policy.Valid() {
      assert i <= |es| ==> all[i] == some[i];
    }
  }

  /** A cut is always observable: from a run that was not cut before, the round that
      continues the forgotten one or the next gets another verdict than from a limiter that
      forgets nothing. */
  lemma CutIsObservable(es: seq<Event>, e: Event)
    requires ValidRun(es + [e]) && Uncut(es, e.key) && CutAt(es, e, e.key)
    ensures var all := es + [e, NextRound(e)];
            && ValidRun(all)
            && (VerdictAt(all, |es|) != KeepVerdictAt(all, |es|) || VerdictAt(all, |es| + 1) != KeepVerdictAt(all, |es| + 1))
  {
    var all := es + [e, NextRound(e)];
    PrefixIsValid(es, e);
    TwoMore(es, e, NextRound(e));
    TiedBefore(all, e.key, |es|);
    CutShowsNext(Swept(LimiterRuns.After(es), e.now), KeepAfter(es), e);
  }

  /** A continued run really is cut: from then on the two differ. Forgetting then
      announces the cooldown one round late. */
  lemma CutIsVisible() returns (es: seq<Event>)
    ensures ValidRun(es) && |es| == 3
    ensures es[0].key == es[1].key == es[2].key && Uncut(es[..1], es[0].key) && CutAt(es[..1], es[1], es[1].key)
    ensures VerdictAt(es, 2).accept && !KeepVerdictAt(es, 2).accept
  {
    var p := Policy(30, 2, 3600);
    var r := Round(true, "a", false);
    var day := FORGET_AFTER + 1;
    es := [Event(0, "k", r, p), Event(day, "k", r, p), Event(day + MINUTE, "k", r, p)];
    var e0, e1, e2 := es[0], es[1], es[2];
    assert es[..0] == [] && es[..1] == [e0] && es[..2] == [e0, e1];
    assert [e0][..0] == [] && [e0, e1][..1] == [e0];
    var f1, k1 := LimiterRuns.After([e0]), KeepAfter([e0]);
    assert f1 == StepOf(LimiterRuns.After([]), e0).0 && k1 == KeepStep(KeepAfter([]), e0).0;
    assert Swept(f1, day) == map[];
    var f2, k2 := LimiterRuns.After([e0, e1]), KeepAfter([e0, e1]);
    assert f2 == StepOf(f1, e1).0 && k2 == KeepStep(k1, e1).0;
    assert Uncut([], "k") && !CutAt([], e0, "k");
    assert Uncut(es[..1], "k");
  }
}
