/** When a cooldown is announced, and what it holds back. */
module LimiterCooldown {
  import opened Common
  import opened Limiter
  import opened LimiterRuns

  predicate Forgot(m: Memory, key: string, now: int) {
    key in m && key !in Swept(m, now)
  }

  predicate Announced(es: seq<Event>, key: string, i: int) {
    Accepted(es, key, true, i) && VerdictAt(es, i).coolingUntil.At?
  }

  /** The winners of the accepted manual rounds on a key since the last
      announcement or the last time the key was forgotten. */
  ghost function Streak(es: seq<Event>, key: string): seq<string>
    decreases |es|, 0
  {
    if es == [] then []
    else
      var n := |es| - 1;
      var ws := StreakBefore(es[..n], key, es[n].now);
      if !Accepted(es, key, true, n) then ws
      else if Announced(es, key, n) then []
      else ws + [es[n].round.winner]
  }

  ghost function StreakBefore(es: seq<Event>, key: string, now: int): seq<string>
    decreases |es|, 1
  {
    if Forgot(LimiterRuns.After(es), key, now) then [] else Streak(es, key)
  }

  /** The length of the run of equal named winners that ends ws. */
  function Run(ws: seq<string>): nat {
    var n := |ws|;
    if n == 0 then 0
    else if n > 1 && ws[n - 1] != "" && ws[n - 1] == ws[n - 2] then Run(ws[..n - 1]) + 1
    else 1
  }

  /** The last n rounds share one winner. */
  ghost predicate LastShare(ws: seq<string>, n: int) {
    && 1 <= n <= |ws|
    && (forall j :: |ws| - n <= j < |ws| ==> ws[j] == ws[|ws| - 1])
    && (n > 1 ==> ws[|ws| - 1] != "")
  }

  lemma {:induction false} RunIsShared(ws: seq<string>, n: int)
    requires n >= 1
    ensures Run(ws) >= n <==> LastShare(ws, n)
    decreases |ws|
  {
    var m := |ws|;
    if n > 1 && m > 1 && ws[m - 1] != "" && ws[m - 1] == ws[m - 2] {
      RunIsShared(ws[..m - 1], n - 1);
      assert forall j :: 0 <= j < m - 1 ==> ws[..m - 1][j] == ws[j];
    }
  }

  ghost predicate Tracks(m: Memory, key: string, ws: seq<string>) {
    if key !in m then ws == []
    else
      && m[key].sameRounds == Run(ws)
      && (ws != [] ==> m[key].lastWinner == ws[|ws| - 1])
  }

  lemma RunAppend(ws: seq<string>, w: string)
    ensures Run(ws + [w]) == if ws != [] && w != "" && w == ws[|ws| - 1] then Run(ws) + 1 else 1
  {
    assert (ws + [w])[..|ws|] == ws;
  }

  ghost function StreakStep(ws: seq<string>, m: Memory, e: Event, key: string): seq<string> {
    var v := StepOf(m, e).1;
    if e.key != key || !e.round.manual || !v.accept then ws
    else if v.coolingUntil.At? then []
    else ws + [e.round.winner]
  }

  lemma StepTracks(m: Memory, ws: seq<string>, e: Event, key: string)
    requires Tracks(Swept(m, e.now), key, ws) && e.policy.Valid()
    ensures Tracks(StepOf(m, e).0, key, StreakStep(ws, m, e, key))
  {
    RunAppend(ws, e.round.winner);
  }

  lemma {:induction false} RunTracks(es: seq<Event>, key: string)
    requires ValidRun(es)
    ensures Tracks(LimiterRuns.After(es), key, Streak(es, key))
  {
    if es != [] {
      var n := |es| - 1;
      var m := LimiterRuns.After(es[..n]);
      RunTracks(es[..n], key);
      StepTracks(m, StreakBefore(es[..n], key, es[n].now), es[n], key);
    }
  }

  /** A cooldown is announced exactly when the last sameRounds accepted manual rounds
      on the key, since the previous announcement or forgetting, share one winner. */
  lemma AnnouncedExactly(es: seq<Event>, key: string, i: nat)
    requires ValidRun(es) && Accepted(es, key, true, i)
    ensures var ws := StreakBefore(es[..i], key, es[i].now) + [es[i].round.winner];
            Announced(es, key, i) <==> es[i].policy.cooldownSec > 0 && LastShare(ws, es[i].policy.sameRounds)
  {
    RunTracks(es[..i], key);
    var ws := StreakBefore(es[..i], key, es[i].now);
    RunAppend(ws, es[i].round.winner);
    RunIsShared(ws + [es[i].round.winner], es[i].policy.sameRounds);
  }

  // ---- What a cooldown holds back ----

  function EndOf(e: Event): int {
    e.now + e.policy.Cooldown()
  }

  ghost predicate Holds(m: Memory, key: string, until: int, now: int) {
    now >= until || (key in m && m[key].coolingUntil.At? && until <= m[key].coolingUntil.t)
  }

  /** No announcement after i shortens what i announced. */
  ghost predicate Unshortened(es: seq<Event>, key: string, i: nat)
    requires i < |es|
  {
    forall m :: i < m < |es| && Announced(es, key, m) ==> EndOf(es[i]) <= EndOf(es[m])
  }

  lemma StepHolds(m: Memory, e: Event, key: string, until: int, before: int)
    requires Holds(m, key, until, before) && before <= e.now
    requires e.key == key && StepOf(m, e).1.accept && StepOf(m, e).1.coolingUntil.At? ==> until <= EndOf(e)
    ensures Holds(StepOf(m, e).0, key, until, e.now)
  {
  }

  lemma PrefixAnnounced(es: seq<Event>, n: nat, key: string, i: nat)
    requires i < n <= |es|
    ensures Announced(es[..n], key, i) == Announced(es, key, i)
  {
    PrefixAccepted(es, n, key, true, i);
  }

  lemma PrefixUnshortened(es: seq<Event>, n: nat, key: string, i: nat)
    requires i < n <= |es| && Unshortened(es, key, i)
    ensures Unshortened(es[..n], key, i)
  {
    forall m | i < m < n && Announced(es[..n], key, m)
      ensures EndOf(es[..n][i]) <= EndOf(es[..n][m])
    {
      PrefixAnnounced(es, n, key, m);
    }
  }

  lemma LaterNotShorter(es: seq<Event>, key: string, i: nat, n: nat)
    requires i < n < |es| && Unshortened(es, key, i)
    ensures var v := StepOf(LimiterRuns.After(es[..n]), es[n]).1;
            es[n].key == key && v.accept && v.coolingUntil.At? ==> EndOf(es[i]) <= EndOf(es[n])
  {
    var v := StepOf(LimiterRuns.After(es[..n]), es[n]).1;
    assert VerdictAt(es, n) == v;
    if es[n].key == key && v.accept && v.coolingUntil.At? {
      assert es[n].round.manual;
      assert Announced(es, key, n);
    }
  }

  lemma {:induction false} CooldownHolds(es: seq<Event>, key: string, i: nat)
    requires ValidRun(es) && i < |es| && Announced(es, key, i) && Unshortened(es, key, i)
    ensures Holds(LimiterRuns.After(es), key, EndOf(es[i]), es[|es| - 1].now)
    decreases |es|
  {
    var n := |es| - 1;
    var m := LimiterRuns.After(es[..n]);
    if i < n {
      PrefixAnnounced(es, n, key, i);
      PrefixUnshortened(es, n, key, i);
      CooldownHolds(es[..n], key, i);
      LaterNotShorter(es, key, i, n);
      StepHolds(m, es[n], key, EndOf(es[i]), es[n - 1].now);
    } else {
      assert VerdictAt(es, n) == StepOf(m, es[n]).1;
      AnnouncedHolds(m, es[n], key);
    }
  }

  lemma AnnouncedHolds(m: Memory, e: Event, key: string)
    requires e.key == key && StepOf(m, e).1.accept && StepOf(m, e).1.coolingUntil.At?
    ensures Holds(StepOf(m, e).0, key, EndOf(e), e.now)
  {
  }

  /** Until an announced cooldown ends, the only manual rounds accepted on the key
      are those that show the address in use to be beaten. Forgetting cannot cut it
      short; a later announcement under a changed policy could. */
  lemma CoolingHoldsBack(es: seq<Event>, key: string, i: nat, j: nat)
    requires ValidRun(es) && i < j
    requires Announced(es, key, i) && Accepted(es, key, true, j)
    requires es[j].now < EndOf(es[i])
    requires Unshortened(es[..j], key, i)
    ensures es[j].round.notBest
  {
    PrefixAnnounced(es, j, key, i);
    CooldownHolds(es[..j], key, i);
  }

  /** Under one policy nothing is ever shortened. */
  lemma OnePolicyUnshortened(es: seq<Event>, key: string, i: nat)
    requires ValidRun(es) && i < |es|
    requires forall m :: 0 <= m < |es| ==> es[m].policy == es[i].policy
    ensures Unshortened(es, key, i)
  {
  }

  /** With a shorter cooldown set in between, a round that shows nothing new is
      accepted before the first announced end. */
  lemma PolicyChangeShortens() returns (es: seq<Event>)
    ensures ValidRun(es) && |es| == 3
    ensures Announced(es, "k", 0) && Accepted(es, "k", true, 2)
    ensures es[2].now < EndOf(es[0]) && !es[2].round.notBest
  {
    var long, short := Policy(30, 1, 3600), Policy(30, 1, 30);
    es := [Event(0, "k", Round(true, "a", false), long),
           Event(MINUTE, "k", Round(true, "b", true), short),
           Event(2 * MINUTE, "k", Round(true, "b", false), short)];
    var e0, e1, e2 := es[0], es[1], es[2];
    assert es[..0] == [] && es[..1] == [e0] && es[..2] == [e0, e1];
    assert [e0][..0] == [] && [e0, e1][..1] == [e0];
    assert LimiterRuns.After([e0]) == StepOf(LimiterRuns.After([]), e0).0;
    assert LimiterRuns.After([e0, e1]) == StepOf(LimiterRuns.After([e0]), e1).0;
  }

  // ---- Which manual rounds are accepted, exactly ----

  /** When the last manual round on the key was accepted. */
  function LastManual(es: seq<Event>, key: string): Stamp {
    if es == [] then Never
    else
      var n := |es| - 1;
      if Accepted(es, key, true, n) then At(es[n].now) else LastManual(es[..n], key)
  }

  /** The end that the last cooldown announced on the key was given. */
  function LastEnd(es: seq<Event>, key: string): Stamp {
    if es == [] then Never
    else
      var n := |es| - 1;
      if Announced(es, key, n) then At(EndOf(es[n])) else LastEnd(es[..n], key)
  }

  function ManualOf(m: Memory, key: string): Stamp {
    if key in m then m[key].lastManual else Never
  }

  function CoolingOf(m: Memory, key: string): Stamp {
    if key in m then m[key].coolingUntil else Never
  }

  /** What is remembered of a stamp: all, or nothing once it no longer matters. */
  ghost predicate Recalls(held: Stamp, actual: Stamp, horizon: int) {
    held == actual || (held.Never? && actual.At? && actual.t < horizon)
  }

  ghost predicate Remembers(m: Memory, key: string, manual: Stamp, end: Stamp, now: int) {
    && Recalls(ManualOf(m, key), manual, now - FORGET_AFTER)
    && Recalls(CoolingOf(m, key), end, now)
    && (key in m ==> m[key].touched <= now && (m[key].lastManual.At? ==> m[key].lastManual.t <= m[key].touched))
  }

  lemma SweepRemembers(m: Memory, key: string, manual: Stamp, end: Stamp, before: int, now: int)
    requires Remembers(m, key, manual, end, before) && before <= now
    ensures Remembers(Swept(m, now), key, manual, end, now)
  {
  }

  lemma StepRemembers(m: Memory, e: Event, key: string, manual: Stamp, end: Stamp)
    requires Remembers(Swept(m, e.now), key, manual, end, e.now)
    ensures var v := StepOf(m, e).1; var ours := e.key == key && e.round.manual && v.accept;
                                     Remembers(StepOf(m, e).0, key, if ours then At(e.now) else manual,
                                               if ours && v.coolingUntil.At? then At(EndOf(e)) else end, e.now)
  {
  }

  lemma {:induction false} RunRemembers(es: seq<Event>, key: string)
    requires Timely(es) && es != []
    ensures Remembers(LimiterRuns.After(es), key, LastManual(es, key), LastEnd(es, key), es[|es| - 1].now)
  {
    var n := |es| - 1;
    var m := LimiterRuns.After(es[..n]);
    assert VerdictAt(es, n) == StepOf(m, es[n]).1;
    if n > 0 {
      RunRemembers(es[..n], key);
      SweepRemembers(m, key, LastManual(es[..n], key), LastEnd(es[..n], key), es[n - 1].now, es[n].now);
    }
    StepRemembers(m, es[n], key, LastManual(es[..n], key), LastEnd(es[..n], key));
  }

  /** Whatever is forgotten and however the policy changes, a manual round is accepted exactly
      when its policy's interval has passed since the last accepted one on the key, and it
      either beats the address in use or comes no sooner than the last cooldown announced
      ends. So an announced cooldown holds until a later announcement replaces it. */
  lemma ManualAcceptedExactly(es: seq<Event>, j: nat)
    requires ValidRun(es) && j < |es| && es[j].round.manual
    ensures var e := es[j];
            VerdictAt(es, j).accept
            <==> !Within(e.now, LastManual(es[..j], e.key), e.policy.Interval())
                 && (e.round.notBest || !Before(e.now, LastEnd(es[..j], e.key)))
  {
    var e := es[j];
    if j > 0 {
      RunRemembers(es[..j], e.key);
      SweepRemembers(LimiterRuns.After(es[..j]), e.key, LastManual(es[..j], e.key), LastEnd(es[..j], e.key), es[j - 1].now, e.now);
    }
    assert e.policy.Interval() <= FORGET_AFTER;
  }
}
