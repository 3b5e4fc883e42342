/** Asking for the edge domain's certificate, with back-off
    (internal/control/gateway/gateway.go). */
module Certificates {
  import opened Common
  import Spacing

  const ISSUE_BACKOFF: int := HOUR
  const DNS_BACKOFF: int := MINUTE

  datatype TryState = NoFailure | NoDns | IssueFailed

  /** Where the one goroutine is: resolving the name, ordering, or about to return. */
  datatype Phase = Looking | Ordering | Returning

  datatype Attempt = Attempt(domain: string, phase: Phase)

  datatype State = State(
    issuing: bool,
    tryDomain: string,
    tryState: TryState,
    nextTry: Stamp,
    attempt: Option<Attempt>
  )

  const INITIAL: State := State(false, "", NoFailure, Never, None)

  datatype Event =
    | Request(domain: string, now: int)
    | LookupFailed(now: int)
    | LookupOk(now: int)
    | OrderFailed(now: int)
    | OrderOk(now: int)
    | Return(now: int)
    | Retry(now: int)

  predicate InPhase(s: State, p: Phase) {
    s.attempt.Some? && s.attempt.value.phase == p
  }

  predicate Enabled(s: State, e: Event) {
    match e
    case Request(_, _) => true
    case LookupFailed(_) => InPhase(s, Looking)
    case LookupOk(_) => InPhase(s, Looking)
    case OrderFailed(_) => InPhase(s, Ordering)
    case OrderOk(_) => InPhase(s, Ordering)
    case Return(_) => InPhase(s, Returning)
    case Retry(_) => true
  }

  predicate Refuses(s: State, domain: string, now: int) {
    s.issuing || (s.tryDomain == domain && Before(now, s.nextTry))
  }

  function InPhaseOf(s: State, p: Phase): State
    requires s.attempt.Some?
  {
    s.(attempt := Some(s.attempt.value.(phase := p)))
  }

  function Failed(s: State, state: TryState, until: int): State
    requires s.attempt.Some?
  {
    InPhaseOf(s.(tryState := state, nextTry := At(until)), Returning)
  }

  function Step(s: State, e: Event): State
    requires Enabled(s, e)
  {
    match e
    case Request(domain, now) =>
      if Refuses(s, domain, now) then s
      else State(true, domain, if s.tryDomain == domain then s.tryState else NoFailure, s.nextTry, Some(Attempt(domain, Looking)))
    case LookupFailed(now) => Failed(s, NoDns, now + DNS_BACKOFF)
    case LookupOk(_) => InPhaseOf(s, Ordering)
    case OrderFailed(now) => Failed(s, IssueFailed, now + ISSUE_BACKOFF)
    case OrderOk(_) => InPhaseOf(s.(tryState := NoFailure, nextTry := Never), Returning)
    case Return(_) => s.(issuing := false, attempt := None)
    case Retry(_) => s.(nextTry := Never)
  }

  /** The lock-protected fields, and the goroutine that works on them. */
  class Gateway {
    var issuing: bool
    var tryDomain: string
    var tryState: TryState
    var nextTry: Stamp
    var attempt: Option<Attempt>

    function View(): State
      reads this
    {
      State(issuing, tryDomain, tryState, nextTry, attempt)
    }

    constructor ()
      ensures View() == INITIAL
    {
      issuing, tryDomain, tryState, nextTry, attempt := false, "", NoFailure, Never, None;
    }

    method IssueAsync(domain: string, now: int)
      modifies this
      ensures View() == Step(old(View()), Request(domain, now))
    {
      if issuing || (tryDomain == domain && Before(now, nextTry)) {
        return;
      }
      issuing := true;
      if tryDomain != domain {
        tryDomain, tryState := domain, NoFailure;
      }
      attempt := Some(Attempt(domain, Looking));
    }

    method Fail(state: TryState, now: int, wait: int)
      requires attempt.Some?
      modifies this
      ensures View() == Failed(old(View()), state, now + wait)
    {
      tryState, nextTry := state, At(now + wait);
      attempt := Some(attempt.value.(phase := Returning));
    }

    method LookupDone(ok: bool, now: int)
      requires InPhase(View(), Looking)
      modifies this
      ensures View() == Step(old(View()), if ok then LookupOk(now) else LookupFailed(now))
    {
      if !ok {
        Fail(NoDns, now, DNS_BACKOFF);
        return;
      }
      attempt := Some(attempt.value.(phase := Ordering));
    }

    method OrderDone(ok: bool, now: int)
      requires InPhase(View(), Ordering)
      modifies this
      ensures View() == Step(old(View()), if ok then OrderOk(now) else OrderFailed(now))
    {
      if !ok {
        Fail(IssueFailed, now, ISSUE_BACKOFF);
        return;
      }
      tryState, nextTry := NoFailure, Never;
      attempt := Some(attempt.value.(phase := Returning));
    }

    method AttemptReturns(now: int)
      requires InPhase(View(), Returning)
      modifies this
      ensures View() == Step(old(View()), Return(now))
    {
      issuing := false;
      attempt := None;
    }

    method RetryCertificate(now: int)
      modifies this
      ensures View() == Step(old(View()), Retry(now))
    {
      nextTry := Never;
    }
  }

  // ---- Runs ----

  ghost predicate Run(ss: seq<State>, es: seq<Event>) {
    && |ss| == |es| + 1 && ss[0] == INITIAL
    && (forall i :: 0 <= i < |es| ==> Enabled(ss[i], es[i]) && ss[i + 1] == Step(ss[i], es[i]))
    && (forall i, j :: 0 <= i < j < |es| ==> es[i].now <= es[j].now)
  }

  /** Event i starts an attempt for the domain. */
  ghost predicate Begins(ss: seq<State>, es: seq<Event>, i: int, domain: string)
    requires |ss| == |es| + 1
  {
    0 <= i < |es| && es[i].Request? && es[i].domain == domain && !Refuses(ss[i], domain, es[i].now)
  }

  ghost predicate BeginsSome(ss: seq<State>, es: seq<Event>, i: int)
    requires |ss| == |es| + 1
  {
    0 <= i < |es| && es[i].Request? && Begins(ss, es, i, es[i].domain)
  }

  ghost predicate OneAttempt(s: State) {
    && (s.issuing <==> s.attempt.Some?)
    && (s.attempt.Some? ==> s.attempt.value.domain == s.tryDomain)
  }

  /** At most one attempt is under way, and the domain failures are charged to is
      always the one it is for. */
  lemma {:induction false} FailuresAreChargedRight(ss: seq<State>, es: seq<Event>, i: nat)
    requires Run(ss, es) && i <= |es|
    ensures OneAttempt(ss[i])
    ensures BeginsSome(ss, es, i) ==> ss[i].attempt.None? && ss[i + 1].attempt == Some(Attempt(es[i].domain, Looking))
  {
    if i > 0 {
      FailuresAreChargedRight(ss, es, i - 1);
      assert Enabled(ss[i - 1], es[i - 1]) && ss[i] == Step(ss[i - 1], es[i - 1]);
    }
    if i < |es| {
      assert ss[i + 1] == Step(ss[i], es[i]);
    }
  }

  ghost predicate OrderOutcome(e: Event) {
    e.OrderOk? || e.OrderFailed?
  }

  /** An order is only ever placed in an attempt whose own lookup succeeded. */
  lemma OrdersFollowLookups(ss: seq<State>, es: seq<Event>, i: nat)
    requires Run(ss, es) && i < |es| && OrderOutcome(es[i])
    ensures exists j :: 0 <= j < i && es[j].LookupOk? && forall k :: j < k < i ==> !BeginsSome(ss, es, k) && !es[k].Return?
  {
    assert Enabled(ss[i], es[i]);
    var j := LookupBefore(ss, es, i);
  }

  lemma {:induction false} LookupBefore(ss: seq<State>, es: seq<Event>, i: nat) returns (j: nat)
    requires Run(ss, es) && i <= |es| && InPhase(ss[i], Ordering)
    ensures j < i && es[j].LookupOk? && forall k :: j < k < i ==> !BeginsSome(ss, es, k) && !es[k].Return?
  {
    var e := es[i - 1];
    assert Enabled(ss[i - 1], e) && ss[i] == Step(ss[i - 1], e);
    if e.LookupOk? {
      j := i - 1;
    } else {
      FailuresAreChargedRight(ss, es, i - 1);
      assert !BeginsSome(ss, es, i - 1) && !e.Return?;
      assert InPhase(ss[i - 1], Ordering);
      j := LookupBefore(ss, es, i - 1);
    }
  }

  /** Between from and to nobody pressed retry and no other domain was tried. */
  ghost predicate SameDomain(ss: seq<State>, es: seq<Event>, from: nat, to: nat, domain: string)
    requires |ss| == |es| + 1 && to <= |es|
  {
    forall k :: from < k < to ==> !es[k].Retry? && (BeginsSome(ss, es, k) ==> es[k].domain == domain)
  }

  /** The wait ordered at some time is still on, or over. */
  ghost predicate Waiting(s: State, domain: string, until: int, now: int) {
    (s.tryDomain == domain && s.nextTry.At? && until <= s.nextTry.t) || until <= now
  }

  function WaitOf(e: Event): int {
    if e.OrderFailed? then HOUR else MINUTE
  }

  lemma {:induction false} WaitHolds(ss: seq<State>, es: seq<Event>, i: nat, j: nat, domain: string)
    requires Run(ss, es) && i < j <= |es|
    requires (es[i].OrderFailed? || es[i].LookupFailed?) && ss[i].tryDomain == domain
    requires SameDomain(ss, es, i, j, domain)
    ensures Waiting(ss[j], domain, es[i].now + WaitOf(es[i]), es[j - 1].now)
    decreases j
  {
    assert Enabled(ss[j - 1], es[j - 1]) && ss[j] == Step(ss[j - 1], es[j - 1]);
    if i < j - 1 {
      WaitHolds(ss, es, i, j - 1, domain);
      FailuresAreChargedRight(ss, es, j - 1);
      assert es[j - 2].now <= es[j - 1].now;
      var e := es[j - 1];
      if e.OrderOk? || e.OrderFailed? || e.LookupFailed? {
        AttemptBegan(ss, es, i, j - 1, domain);
      }
    }
  }

  /** An attempt under way after a failure began no earlier than its wait allows. */
  lemma {:induction false} AttemptBegan(ss: seq<State>, es: seq<Event>, i: nat, j: nat, domain: string)
    requires Run(ss, es) && i < j <= |es|
    requires (es[i].OrderFailed? || es[i].LookupFailed?) && ss[i].tryDomain == domain
    requires SameDomain(ss, es, i, j, domain)
    requires InPhase(ss[j], Looking) || InPhase(ss[j], Ordering)
    ensures es[i].now + WaitOf(es[i]) <= es[j - 1].now
    decreases j
  {
    var e := es[j - 1];
    assert Enabled(ss[j - 1], e) && ss[j] == Step(ss[j - 1], e);
    if i < j - 1 {
      assert es[j - 2].now <= es[j - 1].now;
      if BeginsSome(ss, es, j - 1) {
        WaitHolds(ss, es, i, j - 1, domain);
      } else {
        AttemptBegan(ss, es, i, j - 1, domain);
      }
    }
  }

  /** After a failed order the next attempt for the domain starts at least an hour
      later (a minute after a failed lookup), unless retry is pressed or another domain
      is tried in between. */
  lemma BackoffIsKept(ss: seq<State>, es: seq<Event>, i: nat, j: nat, domain: string)
    requires Run(ss, es) && i < j < |es|
    requires (es[i].OrderFailed? || es[i].LookupFailed?) && ss[i].tryDomain == domain
    requires Begins(ss, es, j, domain) && SameDomain(ss, es, i, j, domain)
    ensures es[j].now >= es[i].now + WaitOf(es[i])
  {
    WaitHolds(ss, es, i, j, domain);
    assert es[j - 1].now <= es[j].now;
  }

  lemma {:induction false} WaitStaysLifted(ss: seq<State>, es: seq<Event>, i: nat, j: nat)
    requires Run(ss, es) && i < j <= |es| && es[i].Retry?
    requires forall k :: i < k < j ==> !es[k].LookupFailed? && !es[k].OrderFailed?
    ensures ss[j].nextTry == Never
    decreases j
  {
    assert Enabled(ss[j - 1], es[j - 1]) && ss[j] == Step(ss[j - 1], es[j - 1]);
    if i < j - 1 {
      WaitStaysLifted(ss, es, i, j - 1);
    }
  }

  /** Pressing retry takes effect: until something fails again, a request for any domain
      begins an attempt whenever none is under way. */
  lemma RetryIsHeard(ss: seq<State>, es: seq<Event>, i: nat, j: nat)
    requires Run(ss, es) && i < j < |es| && es[i].Retry? && es[j].Request?
    requires forall k :: i < k < j ==> !es[k].LookupFailed? && !es[k].OrderFailed?
    ensures BeginsSome(ss, es, j) <==> ss[j].attempt.None?
  {
    WaitStaysLifted(ss, es, i, j);
    FailuresAreChargedRight(ss, es, j);
  }

  ghost function FailedOrders(es: seq<Event>, from: int, length: int): set<nat> {
    set i: nat | i < |es| && es[i].OrderFailed? && from <= es[i].now <= from + length
  }

  /** So while one domain is tried and nobody presses retry, the CA sees at most one
      failed validation an hour: length / hour + 1 in any window. */
  lemma FailedOrdersAreSpaced(ss: seq<State>, es: seq<Event>, domain: string, from: int, length: int)
    requires Run(ss, es) && 0 <= length
    requires forall k :: 0 <= k < |es| ==> !es[k].Retry? && (BeginsSome(ss, es, k) ==> es[k].domain == domain)
    ensures |FailedOrders(es, from, length)| <= length / HOUR + 1
  {
    var chosen := FailedOrders(es, from, length);
    var at := (i: nat) => if i < |es| then es[i].now else 0;
    forall i, j | i in chosen && j in chosen && i < j
      ensures at(j) - at(i) >= HOUR
    {
      TriedDomain(ss, es, i, domain);
      assert Enabled(ss[i], es[i]) && Enabled(ss[j], es[j]);
      AttemptBegan(ss, es, i, j, domain);
      assert es[j - 1].now <= es[j].now;
    }
    Spacing.WindowBound(chosen, at, from, length, HOUR);
  }

  lemma {:induction false} TriedDomain(ss: seq<State>, es: seq<Event>, i: nat, domain: string)
    requires Run(ss, es) && i <= |es| && ss[i].attempt.Some?
    requires forall k :: 0 <= k < |es| && BeginsSome(ss, es, k) ==> es[k].domain == domain
    ensures ss[i].tryDomain == domain
  {
    FailuresAreChargedRight(ss, es, i);
    if i > 0 {
      assert Enabled(ss[i - 1], es[i - 1]) && ss[i] == Step(ss[i - 1], es[i - 1]);
      if !BeginsSome(ss, es, i - 1) {
        TriedDomain(ss, es, i - 1, domain);
      }
    }
  }
}
