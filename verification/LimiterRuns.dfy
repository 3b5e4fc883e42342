/** What the limiter guarantees over whole runs, although it forgets. */
module LimiterRuns {
  import opened Common
  import opened Limiter
  import Spacing

  datatype Event = Event(now: int, key: string, round: Round, policy: Policy)

  type Memory = map<string, LimitState>

  /** The clock does not run backwards. */
  ghost predicate Timely(es: seq<Event>) {
    forall i, j :: 0 <= i < j < |es| ==> es[i].now <= es[j].now
  }

  /** Any keys in any order, under valid policies that may change between rounds. */
  ghost predicate ValidRun(es: seq<Event>) {
    Timely(es) && (forall i :: 0 <= i < |es| ==> es[i].policy.Valid())
  }

  function StepOf(m: Memory, e: Event): (Memory, Verdict) {
    CheckSpec(m, e.now, e.key, e.round, e.policy)
  }

  /** The limiter's memory after a run. */
  function After(es: seq<Event>): Memory {
    if es == [] then map[] else StepOf(After(es[..|es| - 1]), es[|es| - 1]).0
  }

  function VerdictAt(es: seq<Event>, i: nat): Verdict
    requires i < |es|
  {
    StepOf(After(es[..i]), es[i]).1
  }

  /** Round i is an accepted one of the given kind on the key. */
  predicate Accepted(es: seq<Event>, key: string, manual: bool, i: int) {
    0 <= i < |es| && es[i].key == key && es[i].round.manual == manual && VerdictAt(es, i).accept
  }

  lemma PrefixAccepted(es: seq<Event>, n: nat, key: string, manual: bool, i: int)
    requires i < n <= |es|
    ensures Accepted(es[..n], key, manual, i) == Accepted(es, key, manual, i)
    ensures 0 <= i ==> VerdictAt(es[..n], i) == VerdictAt(es, i)
  {
    if 0 <= i {
      assert es[..n][..i] == es[..i];
    }
  }

  // ---- Forgetting does not weaken the gaps ----

  /** When the accepted rounds of one kind on a key took place. */
  function Times(es: seq<Event>, key: string, manual: bool): set<int> {
    if es == [] then {}
    else
      var n := |es| - 1;
      var (e, before) := (es[n], Times(es[..n], key, manual));
      if e.key == key && e.round.manual == manual && StepOf(After(es[..n]), e).1.accept then before + {e.now}
      else before
  }

  lemma {:induction false} AcceptedIsTimed(es: seq<Event>, key: string, manual: bool, i: nat)
    requires Accepted(es, key, manual, i)
    ensures es[i].now in Times(es, key, manual)
  {
    var n := |es| - 1;
    if i < n {
      PrefixAccepted(es, n, key, manual, i);
      AcceptedIsTimed(es[..n], key, manual, i);
    }
  }

  function LastOf(st: LimitState, manual: bool): Stamp {
    if manual then st.lastManual else st.lastAuto
  }

  /** Every accepted time still counts against the key: it is no later than the
      one remembered, or a whole day past. */
  ghost predicate Counted(times: set<int>, m: Memory, key: string, manual: bool, now: int) {
    var last := if key in m then LastOf(m[key], manual) else Never;
    && (key in m ==> m[key].touched <= now && (last.At? ==> last.t <= m[key].touched))
    && (forall t :: t in times ==> (last.At? && t <= last.t) || now - t > FORGET_AFTER)
  }

  lemma SweepCounts(times: set<int>, m: Memory, key: string, manual: bool, before: int, now: int)
    requires Counted(times, m, key, manual, before) && before <= now
    ensures Counted(times, Swept(m, now), key, manual, now)
  {
  }

  lemma StepCounts(times: set<int>, m: Memory, e: Event, key: string, manual: bool)
    requires Counted(times, Swept(m, e.now), key, manual, e.now)
    ensures Counted(times + (if e.key == key && e.round.manual == manual && StepOf(m, e).1.accept then {e.now} else {}),
                    StepOf(m, e).0, key, manual, e.now)
  {
  }

  lemma {:induction false} RunCounts(es: seq<Event>, key: string, manual: bool)
    requires Timely(es) && es != []
    ensures Counted(Times(es, key, manual), After(es), key, manual, es[|es| - 1].now)
  {
    var n := |es| - 1;
    var pre, e := es[..n], es[n];
    if n > 0 {
      RunCounts(pre, key, manual);
      SweepCounts(Times(pre, key, manual), After(pre), key, manual, es[n - 1].now, e.now);
    }
    StepCounts(Times(pre, key, manual), After(pre), e, key, manual);
    assert Times(pre, key, manual) + {} == Times(pre, key, manual);
  }

  /** The least distance between accepted rounds of a kind, by the later one's policy. */
  function GapOf(e: Event): int {
    if e.round.manual then e.policy.Interval() else AUTO_GAP
  }

  /** Two accepted rounds of one kind on one key are the later one's gap apart, as every
      valid policy's gap is no longer than a key is remembered. */
  lemma GapKept(es: seq<Event>, key: string, manual: bool, i: nat, j: nat)
    requires Timely(es) && i < j < |es| && (ValidRun(es) || GapOf(es[j]) <= FORGET_AFTER)
    requires Accepted(es, key, manual, i) && Accepted(es, key, manual, j)
    ensures es[j].now - es[i].now >= GapOf(es[j])
  {
    var pre := es[..j];
    RunCounts(pre, key, manual);
    PrefixAccepted(es, j, key, manual, i);
    AcceptedIsTimed(pre, key, manual, i);
    SweepCounts(Times(pre, key, manual), After(pre), key, manual, es[j - 1].now, es[j].now);
  }

  ghost function AcceptedWithin(es: seq<Event>, key: string, manual: bool, from: int, length: int): set<nat> {
    set i: nat | i < |es| && Accepted(es, key, manual, i) && from <= es[i].now <= from + length
  }

  /** Any window of the given length pools at most length / gap + 1 rounds of a
      kind from one key, whatever the other keys do and whatever is forgotten. */
  lemma FloodBound(es: seq<Event>, key: string, manual: bool, from: int, length: int, gap: int)
    requires ValidRun(es) && 0 < gap && 0 <= length
    requires forall i :: 0 <= i < |es| && es[i].key == key && es[i].round.manual == manual ==> gap <= GapOf(es[i])
    ensures |AcceptedWithin(es, key, manual, from, length)| <= length / gap + 1
  {
    var chosen := AcceptedWithin(es, key, manual, from, length);
    var at := (i: nat) => if i < |es| then es[i].now else 0;
    forall i, j | i in chosen && j in chosen && i < j
      ensures at(j) - at(i) >= gap
    {
      GapKept(es, key, manual, i, j);
    }
    Spacing.WindowBound(chosen, at, from, length, gap);
  }

  // ---- Why a valid interval is at most a day ----

  /** Under one policy, which need not be a valid one, accepted manual rounds of a key are an
      interval apart. */
  ghost predicate Keeps(es: seq<Event>, p: Policy) {
    Timely(es) && (forall i :: 0 <= i < |es| ==> es[i].policy == p) ==>
      forall key, i, j :: i < j && Accepted(es, key, true, i) && Accepted(es, key, true, j) ==> es[j].now - es[i].now >= p.Interval()
  }

  /** A longer interval is forgotten, unless every manual round starts a cooldown that lasts
      as long. */
  lemma LongerIntervalIsForgotten(p: Policy) returns (es: seq<Event>)
    requires p.intervalSec > 86400 && (p.sameRounds > 1 || p.cooldownSec < p.intervalSec)
    ensures !Keeps(es, p)
  {
    var r := Round(true, "a", false);
    var until := if p.sameRounds > 1 || p.cooldownSec <= 86400 then FORGET_AFTER else p.Cooldown();
    es := [Event(0, "k", r, p), Event(until + 1, "k", r, p)];
    assert es[..0] == [] && es[..1] == [es[0]] && [es[0]][..0] == [];
    assert After([es[0]]) == StepOf(After([]), es[0]).0;
    var m := After(es[..1]);
    assert m == StepOf(map[], es[0]).0;
    assert "k" in m && m["k"].touched == 0;
    assert Swept(m, es[1].now) == map[];
    assert Accepted(es, "k", true, 0) && Accepted(es, "k", true, 1);
  }

  /** Every accepted manual time is an interval past, or remembered under a cooldown that
      lasts the interval. */
  ghost predicate Guarded(times: set<int>, m: Memory, key: string, interval: int, now: int) {
    forall t :: t in times ==>
                  || now - t >= interval
                  || (key in m && m[key].lastManual.At? && t <= m[key].lastManual.t
                      && m[key].coolingUntil.At? && m[key].lastManual.t + interval <= m[key].coolingUntil.t)
  }

  lemma SweepGuards(times: set<int>, m: Memory, key: string, interval: int, before: int, now: int)
    requires Guarded(times, m, key, interval, before) && before <= now
    ensures Guarded(times, Swept(m, now), key, interval, now)
  {
  }

  lemma StepGuards(times: set<int>, m: Memory, e: Event, key: string)
    requires e.policy.sameRounds <= 1 && e.policy.cooldownSec >= e.policy.intervalSec > 0
    requires Guarded(times, Swept(m, e.now), key, e.policy.Interval(), e.now)
    requires key in Swept(m, e.now) ==> m[key].sameRounds >= 0
    requires forall t :: t in times ==> t <= e.now
    ensures Guarded(times + (if e.key == key && e.round.manual && StepOf(m, e).1.accept then {e.now} else {}),
                    StepOf(m, e).0, key, e.policy.Interval(), e.now)
  {
  }

  lemma {:induction false} CountIsNat(es: seq<Event>, key: string)
    ensures key in After(es) ==> After(es)[key].sameRounds >= 0
  {
    if es != [] {
      CountIsNat(es[..|es| - 1], key);
    }
  }

  lemma {:induction false} TimesArePast(es: seq<Event>, key: string, now: int)
    requires forall i :: 0 <= i < |es| ==> es[i].now <= now
    ensures forall t :: t in Times(es, key, true) ==> t <= now
  {
    if es != [] {
      TimesArePast(es[..|es| - 1], key, now);
    }
  }

  lemma {:induction false} RunGuards(es: seq<Event>, p: Policy, key: string)
    requires Timely(es) && es != [] && forall i :: 0 <= i < |es| ==> es[i].policy == p
    requires p.sameRounds <= 1 && p.cooldownSec >= p.intervalSec > 0
    ensures Guarded(Times(es, key, true), After(es), key, p.Interval(), es[|es| - 1].now)
  {
    var n := |es| - 1;
    var pre, e := es[..n], es[n];
    if n > 0 {
      RunGuards(pre, p, key);
      SweepGuards(Times(pre, key, true), After(pre), key, p.Interval(), es[n - 1].now, e.now);
    }
    CountIsNat(pre, key);
    TimesArePast(pre, key, e.now);
    StepGuards(Times(pre, key, true), After(pre), e, key);
    assert Times(pre, key, true) + {} == Times(pre, key, true);
  }

  lemma LongCooldownKeeps(es: seq<Event>, p: Policy)
    requires p.sameRounds <= 1 && p.cooldownSec >= p.intervalSec > 0
    ensures Keeps(es, p)
  {
    if Timely(es) && forall i :: 0 <= i < |es| ==> es[i].policy == p {
      forall key, i, j | i < j && Accepted(es, key, true, i) && Accepted(es, key, true, j)
        ensures es[j].now - es[i].now >= p.Interval()
      {
        RunGuards(es[..j], p, key);
        SweepGuards(Times(es[..j], key, true), After(es[..j]), key, p.Interval(), es[j - 1].now, es[j].now);
        PrefixAccepted(es, j, key, true, i);
        AcceptedIsTimed(es[..j], key, true, i);
      }
    }
  }

  /** The bound of a day on a policy's interval, exactly: one policy keeps its interval over
      all runs if and only if the interval is at most a day, or each manual round starts a
      cooldown no shorter than it. */
  lemma IntervalIsKeptExactly(p: Policy)
    ensures (forall es :: Keeps(es, p)) <==> p.intervalSec <= 86400 || (p.sameRounds <= 1 && p.cooldownSec >= p.intervalSec)
  {
    if p.intervalSec <= 86400 {
      forall es ensures Keeps(es, p) {
        ShortIntervalKeeps(es, p);
      }
    } else if p.sameRounds <= 1 && p.cooldownSec >= p.intervalSec {
      forall es ensures Keeps(es, p) {
        LongCooldownKeeps(es, p);
      }
    } else {
      var es := LongerIntervalIsForgotten(p);
    }
  }

  lemma ShortIntervalKeeps(es: seq<Event>, p: Policy)
    requires p.intervalSec <= 86400
    ensures Keeps(es, p)
  {
    if Timely(es) && forall i :: 0 <= i < |es| ==> es[i].policy == p {
      forall key, i, j | i < j && Accepted(es, key, true, i) && Accepted(es, key, true, j)
        ensures es[j].now - es[i].now >= p.Interval()
      {
        assert GapOf(es[j]) <= FORGET_AFTER;
        GapKept(es, key, true, i, j);
      }
    }
  }
}
