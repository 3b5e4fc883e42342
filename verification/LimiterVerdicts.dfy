/** Which rounds are accepted, and why the others are not, told from the accepted ones before. */
module LimiterVerdicts {
  import opened Common
  import opened Limiter
  import opened LimiterRuns
  import opened LimiterCooldown

  // ---- What is remembered did happen ----

  /** The time the memory holds for a kind is one of the accepted ones. */
  ghost predicate Sourced(times: set<int>, m: Memory, key: string, manual: bool) {
    key in m && LastOf(m[key], manual).At? ==> LastOf(m[key], manual).t in times
  }

  lemma StepSources(times: set<int>, m: Memory, e: Event, key: string, manual: bool)
    requires Sourced(times, m, key, manual)
    ensures Sourced(times + (if e.key == key && e.round.manual == manual && StepOf(m, e).1.accept then {e.now} else {}),
                    StepOf(m, e).0, key, manual)
  {
  }

  lemma {:induction false} RunSources(es: seq<Event>, key: string, manual: bool)
    ensures Sourced(Times(es, key, manual), LimiterRuns.After(es), key, manual)
  {
    if es != [] {
      var n := |es| - 1;
      RunSources(es[..n], key, manual);
      StepSources(Times(es[..n], key, manual), LimiterRuns.After(es[..n]), es[n], key, manual);
      assert Times(es[..n], key, manual) + {} == Times(es[..n], key, manual);
    }
  }

  lemma {:induction false} TimedIsAccepted(es: seq<Event>, key: string, manual: bool, t: int) returns (i: nat)
    requires t in Times(es, key, manual)
    ensures Accepted(es, key, manual, i) && es[i].now == t
  {
    var n := |es| - 1;
    if t in Times(es[..n], key, manual) {
      i := TimedIsAccepted(es[..n], key, manual, t);
      PrefixAccepted(es, n, key, manual, i);
    } else {
      i := n;
      assert VerdictAt(es, n) == StepOf(LimiterRuns.After(es[..n]), es[n]).1;
    }
  }

  // ---- The three verdicts ----

  /** A round of j's kind was accepted on j's key less than j's gap before it. */
  ghost predicate TooSoon(es: seq<Event>, j: nat)
    requires j < |es|
  {
    exists i :: 0 <= i < j && Accepted(es, es[j].key, es[j].round.manual, i) && es[j].now - es[i].now < GapOf(es[j])
  }

  /** The manual round j shows nothing new before the last announced cooldown ends. */
  ghost predicate Cooling(es: seq<Event>, j: nat)
    requires j < |es|
  {
    es[j].round.manual && !es[j].round.notBest && Before(es[j].now, LastEnd(es[..j], es[j].key))
  }

  /** What the memory holds against round j when it comes. */
  function Held(es: seq<Event>, j: nat): LimitState
    requires j < |es|
  {
    MemoryOf(Swept(LimiterRuns.After(es[..j]), es[j].now), es[j].key, es[j].now)
  }

  lemma HeldIsTooSoon(es: seq<Event>, j: nat)
    requires j < |es| && Within(es[j].now, LastOf(Held(es, j), es[j].round.manual), GapOf(es[j]))
    ensures TooSoon(es, j)
  {
    var (e, pre) := (es[j], es[..j]);
    RunSources(pre, e.key, e.round.manual);
    var i := TimedIsAccepted(pre, e.key, e.round.manual, LastOf(LimiterRuns.After(pre)[e.key], e.round.manual).t);
    PrefixAccepted(es, j, e.key, e.round.manual, i);
  }

  lemma TooSoonIsHeld(es: seq<Event>, i: nat, j: nat)
    requires ValidRun(es) && i < j < |es| && es[j].now - es[i].now < GapOf(es[j])
    requires Accepted(es, es[j].key, es[j].round.manual, i)
    ensures Within(es[j].now, LastOf(Held(es, j), es[j].round.manual), GapOf(es[j]))
  {
    var (pre, key, manual) := (es[..j], es[j].key, es[j].round.manual);
    RunCounts(pre, key, manual);
    PrefixAccepted(es, j, key, manual, i);
    AcceptedIsTimed(pre, key, manual, i);
    SweepCounts(Times(pre, key, manual), LimiterRuns.After(pre), key, manual, es[j - 1].now, es[j].now);
    assert GapOf(es[j]) <= FORGET_AFTER;
  }

  lemma HeldGap(es: seq<Event>, j: nat)
    requires ValidRun(es) && j < |es|
    ensures Within(es[j].now, LastOf(Held(es, j), es[j].round.manual), GapOf(es[j])) <==> TooSoon(es, j)
  {
    if Within(es[j].now, LastOf(Held(es, j), es[j].round.manual), GapOf(es[j])) {
      HeldIsTooSoon(es, j);
    }
    if TooSoon(es, j) {
      var i: nat :| i < j && Accepted(es, es[j].key, es[j].round.manual, i) && es[j].now - es[i].now < GapOf(es[j]);
      TooSoonIsHeld(es, i, j);
    }
  }

  lemma HeldCooldown(es: seq<Event>, j: nat)
    requires ValidRun(es) && j < |es|
    ensures Before(es[j].now, Held(es, j).coolingUntil) <==> Before(es[j].now, LastEnd(es[..j], es[j].key))
    ensures Before(es[j].now, Held(es, j).coolingUntil) ==> Held(es, j).coolingUntil == LastEnd(es[..j], es[j].key)
  {
    var e := es[j];
    if j > 0 {
      RunRemembers(es[..j], e.key);
      SweepRemembers(LimiterRuns.After(es[..j]), e.key, LastManual(es[..j], e.key), LastEnd(es[..j], e.key), es[j - 1].now, e.now);
    }
  }

  lemma DecideCases(st: LimitState, e: Event)
    ensures var v := Decide(st, e.now, e.round, e.policy).1;
            var soon := Within(e.now, LastOf(st, e.round.manual), GapOf(e));
            var cooling := e.round.manual && !e.round.notBest && Before(e.now, st.coolingUntil);
            && (v.accept <==> !soon && !cooling)
            && v.reason == (if soon then "too_soon" else if cooling then "cooling" else "")
            && (!v.accept ==> v.coolingUntil == if soon then Never else st.coolingUntil)
            && (v.accept && v.coolingUntil.At? ==> e.round.manual && v.coolingUntil == At(EndOf(e)))
  {
  }

  /** Every verdict of every run, manual and automatic, from what was accepted before it: a
      round is refused as too soon exactly when one of its kind was accepted on its key
      within its gap, as cooling exactly when it is not too soon but manual, shows nothing
      new, and comes before the last announced end, which the refusal repeats; and every
      other round is accepted, a cooldown it announces ending when its policy says. */
  lemma VerdictExactly(es: seq<Event>, j: nat)
    requires ValidRun(es) && j < |es|
    ensures VerdictAt(es, j).accept <==> !TooSoon(es, j) && !Cooling(es, j)
    ensures VerdictAt(es, j).reason == if TooSoon(es, j) then "too_soon" else if Cooling(es, j) then "cooling" else ""
    ensures VerdictAt(es, j).accept && VerdictAt(es, j).coolingUntil.At? ==> es[j].round.manual && VerdictAt(es, j).coolingUntil == At(EndOf(es[j]))
    ensures VerdictAt(es, j).reason == "too_soon" ==> VerdictAt(es, j).coolingUntil == Never
    ensures VerdictAt(es, j).reason == "cooling" ==> VerdictAt(es, j).coolingUntil == LastEnd(es[..j], es[j].key)
  {
    HeldGap(es, j);
    HeldCooldown(es, j);
    DecideCases(Held(es, j), es[j]);
  }

  /** An automatic round is accepted exactly when no earlier accepted automatic round of its
      key lies less than ten minutes before it: manual rounds, cooldowns, other keys and
      whatever was forgotten make no difference. */
  lemma AutoAcceptedExactly(es: seq<Event>, j: nat)
    requires ValidRun(es) && j < |es| && !es[j].round.manual
    ensures VerdictAt(es, j).accept
       <==> forall i :: 0 <= i < j && Accepted(es, es[j].key, false, i) ==> es[j].now - es[i].now >= 10 * MINUTE
  {
    VerdictExactly(es, j);
  }
}
