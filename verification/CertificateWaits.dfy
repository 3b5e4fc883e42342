/** When a request for a certificate begins an attempt, told from the events before it. */
module CertificateWaits {
  import opened Common
  import opened Certificates

  /** An attempt for the domain began at b, and had not returned when event i came. */
  ghost predicate Ongoing(ss: seq<State>, es: seq<Event>, b: int, i: int, domain: string)
    requires |ss| == |es| + 1 && i <= |es|
  {
    0 <= b < i && Begins(ss, es, b, domain) && forall k :: b < k < i ==> !es[k].Return?
  }

  ghost predicate UnderWay(ss: seq<State>, es: seq<Event>, i: int, domain: string)
    requires |ss| == |es| + 1 && i <= |es|
  {
    exists b :: Ongoing(ss, es, b, i, domain)
  }

  predicate Failure(e: Event) {
    e.LookupFailed? || e.OrderFailed?
  }

  /** What sets or lifts a wait. */
  predicate Decides(e: Event) {
    Failure(e) || e.OrderOk? || e.Retry?
  }

  /** Event i is the last before j to set or lift a wait. */
  ghost predicate LastDecision(es: seq<Event>, i: int, j: int)
    requires j <= |es|
  {
    0 <= i < j && Decides(es[i]) && forall k :: i < k < j ==> !Decides(es[k])
  }

  /** The last decision before j is a failure, of an attempt for the domain j asks for, whose
      wait is not over. */
  ghost predicate BacksOff(ss: seq<State>, es: seq<Event>, j: int)
    requires |ss| == |es| + 1 && 0 <= j < |es| && es[j].Request?
  {
    exists i :: LastDecision(es, i, j) && Failure(es[i]) && UnderWay(ss, es, i, es[j].domain)
                && es[j].now < es[i].now + WaitOf(es[i])
  }

  // ---- The attempt under way is the one begun last ----

  lemma {:induction false} OngoingIsIt(ss: seq<State>, es: seq<Event>, b: int, i: nat, domain: string)
    requires Run(ss, es) && i <= |es| && Ongoing(ss, es, b, i, domain)
    ensures ss[i].attempt.Some? && ss[i].attempt.value.domain == domain
  {
    assert Enabled(ss[i - 1], es[i - 1]) && ss[i] == Step(ss[i - 1], es[i - 1]);
    if b < i - 1 {
      OngoingIsIt(ss, es, b, i - 1, domain);
      FailuresAreChargedRight(ss, es, i - 1);
    }
  }

  lemma {:induction false} AttemptIsOngoing(ss: seq<State>, es: seq<Event>, i: nat) returns (b: int)
    requires Run(ss, es) && i <= |es| && ss[i].attempt.Some?
    ensures Ongoing(ss, es, b, i, ss[i].attempt.value.domain)
  {
    var e := es[i - 1];
    assert Enabled(ss[i - 1], e) && ss[i] == Step(ss[i - 1], e);
    FailuresAreChargedRight(ss, es, i - 1);
    if BeginsSome(ss, es, i - 1) {
      b := i - 1;
    } else {
      b := AttemptIsOngoing(ss, es, i - 1);
    }
  }

  lemma UnderWayExactly(ss: seq<State>, es: seq<Event>, i: nat, domain: string)
    requires Run(ss, es) && i <= |es|
    ensures UnderWay(ss, es, i, domain) <==> ss[i].attempt.Some? && ss[i].attempt.value.domain == domain
  {
    if b :| Ongoing(ss, es, b, i, domain) {
      OngoingIsIt(ss, es, b, i, domain);
    }
    if ss[i].attempt.Some? {
      var b := AttemptIsOngoing(ss, es, i);
    }
  }

  // ---- The wait in force is the last decision's ----

  function LastOf(es: seq<Event>, j: nat): int
    requires j <= |es|
  {
    if j == 0 then -1 else if Decides(es[j - 1]) then j - 1 else LastOf(es, j - 1)
  }

  lemma {:induction false} LastIsLast(es: seq<Event>, j: nat)
    requires j <= |es|
    ensures -1 <= LastOf(es, j) < j
    ensures if LastOf(es, j) < 0 then forall k :: 0 <= k < j ==> !Decides(es[k]) else LastDecision(es, LastOf(es, j), j)
  {
    if j > 0 {
      LastIsLast(es, j - 1);
    }
  }

  lemma LastIsOne(es: seq<Event>, i: int, j: nat)
    requires j <= |es| && LastDecision(es, i, j)
    ensures i == LastOf(es, j)
  {
    LastIsLast(es, j);
  }

  ghost predicate Undecided(s: State) {
    InPhase(s, Looking) || InPhase(s, Ordering)
  }

  /** The next try is the last failure's, if nothing lifted it; its domain is the one on
      record unless an attempt is still to be decided. */
  ghost predicate Kept(ss: seq<State>, es: seq<Event>, j: nat)
    requires |ss| == |es| + 1 && j <= |es|
  {
    var i := LastOf(es, j);
    if 0 <= i < j && Failure(es[i]) then
      ss[j].nextTry == At(es[i].now + WaitOf(es[i])) && (Undecided(ss[j]) || ss[j].tryDomain == ss[i].tryDomain)
    else ss[j].nextTry == Never
  }

  lemma {:induction false} WaitIsKept(ss: seq<State>, es: seq<Event>, j: nat)
    requires Run(ss, es) && j <= |es|
    ensures Kept(ss, es, j)
  {
    if j > 0 {
      WaitIsKept(ss, es, j - 1);
      LastIsLast(es, j - 1);
      FailuresAreChargedRight(ss, es, j - 1);
      assert Enabled(ss[j - 1], es[j - 1]) && ss[j] == Step(ss[j - 1], es[j - 1]);
    }
  }

  /** Over every run: a request begins an attempt exactly when none is under way and its
      domain is not backing off. So another domain never waits, nor does the same one once
      its wait is over, an order has succeeded, or retry was pressed. */
  lemma BeginsExactly(ss: seq<State>, es: seq<Event>, j: nat)
    requires Run(ss, es) && j < |es| && es[j].Request?
    ensures BeginsSome(ss, es, j) <==> (forall d :: !UnderWay(ss, es, j, d)) && !BacksOff(ss, es, j)
  {
    FailuresAreChargedRight(ss, es, j);
    WaitIsKept(ss, es, j);
    LastIsLast(es, j);
    var i := LastOf(es, j);
    if ss[j].attempt.Some? {
      UnderWayExactly(ss, es, j, ss[j].attempt.value.domain);
    } else {
      forall d ensures !UnderWay(ss, es, j, d) {
        UnderWayExactly(ss, es, j, d);
      }
    }
    if i >= 0 && Failure(es[i]) {
      assert Enabled(ss[i], es[i]);
      FailuresAreChargedRight(ss, es, i);
      UnderWayExactly(ss, es, i, es[j].domain);
    }
    if BacksOff(ss, es, j) {
      var k :| LastDecision(es, k, j) && Failure(es[k]) && UnderWay(ss, es, k, es[j].domain) && es[j].now < es[k].now + WaitOf(es[k]);
      LastIsOne(es, k, j);
    }
  }

  // ---- The failure that is shown ----

  predicate Outcome(e: Event) {
    Failure(e) || e.OrderOk?
  }

  /** Event i is the last outcome before j, and no other domain was tried since. */
  ghost predicate LastOutcome(ss: seq<State>, es: seq<Event>, i: int, j: nat)
    requires |ss| == |es| + 1 && j <= |es|
  {
    && 0 <= i < j && Outcome(es[i]) && (forall k :: i < k < j ==> !Outcome(es[k]))
    && (forall k :: i < k < j && BeginsSome(ss, es, k) ==> UnderWay(ss, es, i, es[k].domain))
  }

  function StateOf(e: Event): TryState {
    if e.LookupFailed? then NoDns else if e.OrderFailed? then IssueFailed else NoFailure
  }

  lemma LastOutcomeStep(ss: seq<State>, es: seq<Event>, i: int, j: nat)
    requires Run(ss, es) && 0 < j <= |es|
    ensures LastOutcome(ss, es, i, j)
       <==> if Outcome(es[j - 1]) then i == j - 1
            else LastOutcome(ss, es, i, j - 1) && (BeginsSome(ss, es, j - 1) ==> UnderWay(ss, es, i, es[j - 1].domain))
  {
  }

  /** The last outcome's domain is the one on record, until another domain is tried. */
  lemma {:induction false} RecordIsLast(ss: seq<State>, es: seq<Event>, i: int, j: nat)
    requires Run(ss, es) && j <= |es| && LastOutcome(ss, es, i, j)
    ensures ss[j].tryState == StateOf(es[i]) && UnderWay(ss, es, i, ss[j].tryDomain)
    decreases j
  {
    LastOutcomeStep(ss, es, i, j);
    assert Enabled(ss[j - 1], es[j - 1]) && ss[j] == Step(ss[j - 1], es[j - 1]);
    FailuresAreChargedRight(ss, es, j - 1);
    if Outcome(es[j - 1]) {
      UnderWayExactly(ss, es, i, ss[j].tryDomain);
    } else {
      RecordIsLast(ss, es, i, j - 1);
      if BeginsSome(ss, es, j - 1) {
        OneUnderWay(ss, es, i, ss[j - 1].tryDomain, es[j - 1].domain);
      }
    }
  }

  lemma OneUnderWay(ss: seq<State>, es: seq<Event>, i: nat, c: string, d: string)
    requires Run(ss, es) && i <= |es| && UnderWay(ss, es, i, c) && UnderWay(ss, es, i, d)
    ensures c == d
  {
    UnderWayExactly(ss, es, i, c);
    UnderWayExactly(ss, es, i, d);
  }

  /** A recorded failure has its cause. */
  lemma {:induction false} FailureHasCause(ss: seq<State>, es: seq<Event>, j: nat) returns (i: int)
    requires Run(ss, es) && j <= |es| && ss[j].tryState != NoFailure
    ensures LastOutcome(ss, es, i, j)
    decreases j
  {
    var e := es[j - 1];
    assert Enabled(ss[j - 1], e) && ss[j] == Step(ss[j - 1], e);
    if Outcome(e) {
      i := j - 1;
    } else {
      i := FailureHasCause(ss, es, j - 1);
      RecordIsLast(ss, es, i, j - 1);
    }
    LastOutcomeStep(ss, es, i, j);
  }

  /** The panel shows a failure exactly while the last outcome was that failure and no other
      domain has been tried since; then the domain it is shown for is the one that failed.
      Pressing retry does not hide it. */
  lemma ShownFailureExactly(ss: seq<State>, es: seq<Event>, j: nat, failure: TryState)
    requires Run(ss, es) && j <= |es| && failure != NoFailure
    ensures ss[j].tryState == failure <==> exists i :: LastOutcome(ss, es, i, j) && StateOf(es[i]) == failure
    ensures forall i :: LastOutcome(ss, es, i, j) ==> UnderWay(ss, es, i, ss[j].tryDomain)
  {
    forall i | LastOutcome(ss, es, i, j)
      ensures ss[j].tryState == StateOf(es[i]) && UnderWay(ss, es, i, ss[j].tryDomain)
    {
      RecordIsLast(ss, es, i, j);
    }
    if ss[j].tryState == failure {
      var i := FailureHasCause(ss, es, j);
    }
  }
}
