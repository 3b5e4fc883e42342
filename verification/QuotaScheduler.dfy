/** The two goroutines behind enforcement and the one-slot channel between them
    (internal/control/api/quota_scheduler.go), as interleaved steps. */
module QuotaScheduler {
  import opened Common
  import opened Model
  import opened Quota
  import opened QuotaLaws

  /** The runner: waiting, holding a token it has just received, or inside EnforceAll
      with the ids it still has to disable. */
  datatype Runner = Waiting | Received | Sweeping(left: seq<nat>)

  datatype State = State(
    rows: seq<Client>,
    now: int,
    credited: bool,                  // the poller has written bytes and not yet signalled
    token: bool,                     // the buffered slot of the trigger channel
    runner: Runner,
    manual: map<nat, seq<nat>>       // sweeps of POST /quota/enforce, by request
  )

  datatype Event =
    | Credit(email: string, up: int, down: int)
    | Signal
    | Tick
    | Receive
    | Snapshot
    | Disable
    | Finish
    | Elapse(seconds: nat)
    | ManualSnapshot(request: nat)
    | ManualDisable(request: nat)

  function LowestId(cs: seq<Client>, email: string): Option<nat> {
    if cs == [] then None
    else
      var (before, c) := (LowestId(cs[..|cs| - 1], email), cs[|cs| - 1]);
      if c.email == email && (before.None? || c.id < before.value) then Some(c.id) else before
  }

  /** AddUserTraffic: the bytes land on the user's lowest id. */
  function AddUserTraffic(cs: seq<Client>, email: string, up: int, down: int): seq<Client> {
    var id := LowestId(cs, email);
    seq(|cs|, i requires 0 <= i < |cs| =>
      if id == Some(cs[i].id) then cs[i].(trafficUp := cs[i].trafficUp + up, trafficDown := cs[i].trafficDown + down) else cs[i])
  }

  function Ids(ds: seq<Decision>): seq<nat> {
    seq(|ds|, i requires 0 <= i < |ds| => ds[i].clientId)
  }

  predicate Enabled(s: State, e: Event) {
    match e
    case Credit(_, _, _) => true
    case Signal => s.credited
    case Tick => s.runner.Waiting?
    case Receive => s.runner.Waiting? && s.token
    case Snapshot => s.runner.Received?
    case Disable => s.runner.Sweeping? && s.runner.left != []
    case Finish => s.runner.Sweeping? && s.runner.left == []
    case Elapse(_) => true
    case ManualSnapshot(r) => r !in s.manual
    case ManualDisable(r) => r in s.manual && s.manual[r] != []
  }

  function Step(s: State, e: Event): State
    requires Enabled(s, e)
  {
    match e
    case Credit(email, up, down) => s.(rows := AddUserTraffic(s.rows, email, up, down), credited := true)
    case Signal => s.(credited := false, token := true)
    case Tick => s.(token := true)
    case Receive => s.(token := false, runner := Received)
    case Snapshot => s.(runner := Sweeping(Ids(ByUser(s.rows, s.now))))
    case Disable => s.(rows := SetEnabled(s.rows, s.runner.left[0], false), runner := Sweeping(s.runner.left[1..]))
    case Finish => s.(runner := Waiting)
    case Elapse(d) => s.(now := s.now + d)
    case ManualSnapshot(r) => s.(manual := s.manual[r := Ids(ByUser(s.rows, s.now))])
    case ManualDisable(r) =>
      s.(rows := SetEnabled(s.rows, s.manual[r][0], false), manual := s.manual[r := s.manual[r][1..]])
  }

  /** A panel start: whatever the rows, one trigger is already in the slot. */
  ghost predicate Initial(s: State) {
    DistinctIds(s.rows) && !s.credited && s.token && s.runner == Waiting && s.manual == map[]
  }

  ghost predicate Behaviour(ss: seq<State>, es: seq<Event>) {
    && |ss| == |es| + 1 && Initial(ss[0])
    && forall i :: 0 <= i < |es| ==> Enabled(ss[i], es[i]) && ss[i + 1] == Step(ss[i], es[i])
  }

  /** The user has used up its quota. */
  predicate Spent(rows: seq<Client>, email: string) {
    var a := UserAgg(rows, email);
    a.quota > 0 && a.used >= a.quota
  }

  /** Somebody will still look at client id. */
  predicate Pending(s: State, id: nat) {
    s.credited || s.token || s.runner.Received? || (s.runner.Sweeping? && id in s.runner.left)
  }

  ghost predicate NoneLost(s: State) {
    && DistinctIds(s.rows)
    && forall i :: 0 <= i < |s.rows| && s.rows[i].enabled && Spent(s.rows, s.rows[i].email) ==> Pending(s, s.rows[i].id)
  }

  lemma SnapshotLists(rows: seq<Client>, now: int, i: nat)
    requires i < |rows| && rows[i].enabled && Spent(rows, rows[i].email)
    ensures rows[i].id in Ids(ByUser(rows, now))
  {
    ByUserIsExact(rows, now);
    CaughtInLists(rows, rows, now);
    var d := AsDecision(rows, rows[i], now);
    assert d in multiset(CaughtIn(rows, rows, now));
    assert d in ByUser(rows, now);
    var k :| 0 <= k < |ByUser(rows, now)| && ByUser(rows, now)[k] == d;
    assert Ids(ByUser(rows, now))[k] == rows[i].id;
  }

  lemma DisableKeeps(s: State, id: nat, runner: Runner, manual: map<nat, seq<nat>>)
    requires NoneLost(s)
    requires runner == s.runner || (s.runner.Sweeping? && s.runner.left != [] && id == s.runner.left[0] && runner == Sweeping(s.runner.left[1..]))
    ensures NoneLost(s.(rows := SetEnabled(s.rows, id, false), runner := runner, manual := manual))
  {
    var s' := s.(rows := SetEnabled(s.rows, id, false), runner := runner, manual := manual);
    forall i | 0 <= i < |s'.rows| && s'.rows[i].enabled && Spent(s'.rows, s'.rows[i].email)
      ensures Pending(s', s'.rows[i].id)
    {
      LimitsSurvive(s.rows, s'.rows, s.rows[i].email);
      assert s.rows[i].id != id;
      assert Pending(s, s.rows[i].id);
    }
  }

  lemma StepKeeps(s: State, e: Event)
    requires NoneLost(s) && Enabled(s, e)
    ensures NoneLost(Step(s, e))
  {
    match e {
      case Credit(_, _, _) =>
      case Snapshot =>
        forall i | 0 <= i < |s.rows| && s.rows[i].enabled && Spent(s.rows, s.rows[i].email)
          ensures Pending(Step(s, e), s.rows[i].id)
        {
          SnapshotLists(s.rows, s.now, i);
        }
      case Disable => DisableKeeps(s, s.runner.left[0], Sweeping(s.runner.left[1..]), s.manual);
      case ManualDisable(r) => DisableKeeps(s, s.manual[r][0], s.runner, s.manual[r := s.manual[r][1..]]);
      case _ =>
    }
  }

  /** No trigger is lost: in every interleaving, while a client of a user past its quota
      is still enabled, either the poller has yet to signal, or a token is waiting, or a
      sweep has started that has yet to read the rows or already lists that client. */
  lemma {:induction false} NoTriggerIsLost(ss: seq<State>, es: seq<Event>)
    requires Behaviour(ss, es)
    ensures NoneLost(ss[|es|])
    decreases |es|
  {
    if es != [] {
      var n := |es| - 1;
      NoTriggerIsLost(ss[..n + 1], es[..n]);
      StepKeeps(ss[n], es[n]);
    }
  }

  predicate Quiet(s: State) {
    !s.credited && !s.token && s.runner == Waiting
  }

  /** So when nothing is outstanding nobody past their quota is left enabled. */
  lemma QuietMeansEnforced(ss: seq<State>, es: seq<Event>, i: nat)
    requires Behaviour(ss, es) && Quiet(ss[|es|])
    requires i < |ss[|es|].rows| && Spent(ss[|es|].rows, ss[|es|].rows[i].email)
    ensures !ss[|es|].rows[i].enabled
  {
    NoTriggerIsLost(ss, es);
  }

  // ---- And it does go quiet ----

  predicate Internal(e: Event) {
    e.Signal? || e.Receive? || e.Snapshot? || e.Disable? || e.Finish?
  }

  /** One of the two goroutines can step until rest is reached. */
  lemma NeverStuck(s: State)
    ensures Quiet(s) <==> forall e :: Internal(e) ==> !Enabled(s, e)
  {
    if !Quiet(s) {
      var e := if s.credited then Signal
      else if s.runner.Received? then Snapshot
      else if s.runner.Sweeping? && s.runner.left != [] then Disable
      else if s.runner.Sweeping? then Finish
      else Receive;
      assert Internal(e) && Enabled(s, e);
    }
  }

  // ---- ... in bounded time ----

  /** The most steps one sweep over the rows can take. */
  function SweepCost(s: State): nat {
    |s.rows| + 2
  }

  /** An upper bound on how many steps the two goroutines can still take on their own: a
      token stands for one more sweep, an unsignalled credit for a token. */
  function StepsLeft(s: State): nat {
    (if s.credited then 2 + SweepCost(s) else 0)
    + (if s.token then 1 + SweepCost(s) else 0)
    + match s.runner
      case Waiting => 0
      case Received => SweepCost(s)
      case Sweeping(left) => |left| + 1
  }

  lemma {:induction false} CaughtIsShort(all: seq<Client>, cs: seq<Client>, now: int)
    ensures |CaughtIn(all, cs, now)| <= |cs|
  {
    if cs != [] {
      CaughtIsShort(all, cs[..|cs| - 1], now);
    }
  }

  /** A sweep lists no more than the rows. */
  lemma DecisionsAreFew(cs: seq<Client>, now: int)
    ensures |ByUser(cs, now)| <= |cs|
  {
    ByUserIsExact(cs, now);
    CaughtIsShort(cs, cs, now);
    assert |multiset(ByUser(cs, now))| == |ByUser(cs, now)|;
    assert |multiset(CaughtIn(cs, cs, now))| == |CaughtIn(cs, cs, now)|;
  }

  lemma StepsRunOut(s: State, e: Event)
    requires Enabled(s, e) && Internal(e)
    ensures StepsLeft(Step(s, e)) < StepsLeft(s)
  {
    if e.Snapshot? {
      DecisionsAreFew(s.rows, s.now);
    }
  }

  /** States along steps that the two goroutines take on their own. */
  ghost predicate InternalRun(ss: seq<State>, es: seq<Event>) {
    && |ss| == |es| + 1
    && forall i :: 0 <= i < |es| ==> Internal(es[i]) && Enabled(ss[i], es[i]) && ss[i + 1] == Step(ss[i], es[i])
  }

  /** Left alone, the two goroutines stop after a bounded number of steps, and where they
      cannot go on, and only there, they are quiet. */
  lemma {:induction false} InternalRunsEnd(ss: seq<State>, es: seq<Event>)
    requires InternalRun(ss, es)
    ensures |es| + StepsLeft(ss[|es|]) <= StepsLeft(ss[0])
    ensures Quiet(ss[|es|]) <==> forall e :: Internal(e) ==> !Enabled(ss[|es|], e)
    decreases |es|
  {
    NeverStuck(ss[|es|]);
    if es != [] {
      var n := |es| - 1;
      InternalRunsEnd(ss[..n + 1], es[..n]);
      StepsRunOut(ss[n], es[n]);
    }
  }

  lemma {:induction false} InternalRunKeeps(ss: seq<State>, es: seq<Event>)
    requires InternalRun(ss, es) && NoneLost(ss[0])
    ensures NoneLost(ss[|es|])
    decreases |es|
  {
    if es != [] {
      var n := |es| - 1;
      InternalRunKeeps(ss[..n + 1], es[..n]);
      StepKeeps(ss[n], es[n]);
    }
  }

  /** So from wherever any behaviour has led, once no bytes, ticks or requests come any more,
      enforcement comes to rest, and then no user past its quota has an enabled client. */
  lemma RestMeansEnforced(ss: seq<State>, es: seq<Event>, rest: seq<State>, own: seq<Event>, i: nat)
    requires Behaviour(ss, es) && InternalRun(rest, own) && rest[0] == ss[|es|]
    requires forall e :: Internal(e) ==> !Enabled(rest[|own|], e)
    requires i < |rest[|own|].rows| && Spent(rest[|own|].rows, rest[|own|].rows[i].email)
    ensures |own| <= StepsLeft(ss[|es|]) && !rest[|own|].rows[i].enabled
  {
    NoTriggerIsLost(ss, es);
    InternalRunKeeps(rest, own);
    InternalRunsEnd(rest, own);
  }

  // ---- A sweep left alone is EnforceAll ----

  function DisableIds(cs: seq<Client>, ids: seq<nat>): seq<Client>
    decreases |ids|
  {
    if ids == [] then cs else DisableIds(SetEnabled(cs, ids[0], false), ids[1..])
  }

  lemma {:induction false} DisableIdsAppend(cs: seq<Client>, ids: seq<nat>, id: nat)
    ensures DisableIds(cs, ids + [id]) == SetEnabled(DisableIds(cs, ids), id, false)
    decreases |ids|
  {
    if ids == [] {
      assert ([] + [id])[1..] == [] && ([] + [id])[0] == id;
    } else {
      assert (ids + [id])[1..] == ids[1..] + [id];
      DisableIdsAppend(SetEnabled(cs, ids[0], false), ids[1..], id);
    }
  }

  lemma {:induction false} DisablesAsDecided(cs: seq<Client>, ds: seq<Decision>)
    ensures DisableIds(cs, Ids(ds)) == DisableAll(cs, ds)
  {
    if ds != [] {
      var n := |ds| - 1;
      assert Ids(ds) == Ids(ds[..n]) + [ds[n].clientId];
      DisablesAsDecided(cs, ds[..n]);
      DisableIdsAppend(cs, Ids(ds[..n]), ds[n].clientId);
    }
  }

  /** The runner stepping through its list, nobody else moving. */
  function Drained(s: State): State
    requires s.runner.Sweeping?
    decreases |s.runner.left|
  {
    if s.runner.left == [] then Step(s, Finish) else Drained(Step(s, Disable))
  }

  lemma {:induction false} DrainedRows(s: State)
    requires s.runner.Sweeping?
    ensures Drained(s) == s.(rows := DisableIds(s.rows, s.runner.left), runner := Waiting)
    decreases |s.runner.left|
  {
    if s.runner.left != [] {
      DrainedRows(Step(s, Disable));
    }
  }

  /** A sweep nobody interferes with leaves the rows as EnforceAll does, and a second
      one would find nothing. */
  lemma UndisturbedSweep(s: State)
    requires s.runner.Received? && DistinctIds(s.rows)
    ensures Drained(Step(s, Snapshot)) == s.(rows := AfterSweep(s.rows, s.now), runner := Waiting)
    ensures ByUser(Drained(Step(s, Snapshot)).rows, s.now) == []
  {
    DrainedRows(Step(s, Snapshot));
    DisablesAsDecided(s.rows, ByUser(s.rows, s.now));
    SweepIsFixpoint(s.rows, s.now);
  }
}
