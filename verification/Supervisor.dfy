/** The cloudflared supervisor: every lock-protected section is one step
    (internal/control/argo/supervisor.go). */
module Supervisor {
  import opened Common

  datatype TunnelState = Idle | Starting | Running | Failed

  datatype Mode = TempTunnel | NamedTunnel

  datatype Status = Status(state: TunnelState, mode: Option<Mode>, hostname: string, error: string)

  const IDLE: Status := Status(Idle, None, "", "")

  /** The supervisor's fields, and the processes as the operating system has them:
      which were started and how, which were told to end (their context cancelled or
      sent SIGTERM), and which have been waited for. */
  datatype State = State(
    status: Status,
    cmd: Option<nat>,
    modes: map<nat, Mode>,
    told: set<nat>,
    reaped: set<nat>
  )

  const INITIAL: State := State(IDLE, None, map[], {}, {})

  datatype Event =
    | StopBegin                                          // reads cancel and calls it
    | StopEnd                                            // clears the fields
    | Install(p: nat, mode: Mode, host: string)          // a new process takes the fields
    | Reap(p: nat, error: string)                        // p has exited
    | Capture(p: nat, host: string)                      // temp: p's host name was printed
    | Grace(p: nat)                                      // named: p has been alive for 2 s

  predicate Enabled(s: State, e: Event) {
    match e
    case StopBegin => true
    case StopEnd => true
    case Install(p, _, _) => p !in s.modes
    case Reap(p, _) => p in s.modes && p !in s.reaped
    case Capture(p, _) => p in s.modes && s.modes[p] == TempTunnel
    case Grace(p) => p in s.modes && s.modes[p] == NamedTunnel
  }

  function Step(s: State, e: Event): State
    requires Enabled(s, e)
  {
    match e
    case StopBegin => if s.cmd.Some? then s.(told := s.told + {s.cmd.value}) else s
    case StopEnd => s.(status := IDLE, cmd := None, told := if s.cmd.Some? then s.told + {s.cmd.value} else s.told)
    case Install(p, mode, host) =>
      s.(status := Status(Starting, Some(mode), host, ""), cmd := Some(p), modes := s.modes[p := mode])
    case Reap(p, error) =>
      s.(reaped := s.reaped + {p}, status := if s.cmd == Some(p) then s.status.(state := Failed, error := error) else s.status)
    case Capture(p, host) => if s.cmd == Some(p) then s.(status := s.status.(state := Running, hostname := host)) else s
    case Grace(p) => if s.cmd == Some(p) && s.status.state == Starting then s.(status := s.status.(state := Running)) else s
  }

  /** The fields of the source, each with the process it belongs to. */
  class Supervisor {
    var status: Status
    var cancel: Option<nat>
    var cmd: Option<nat>
    var done: Option<nat>
    var modes: map<nat, Mode>
    var told: set<nat>
    var reaped: set<nat>

    /** cancel, cmd and done are only ever set and cleared together. */
    predicate Valid()
      reads this
    {
      cancel == cmd == done
    }

    function View(): State
      reads this
    {
      State(status, cmd, modes, told, reaped)
    }

    constructor ()
      ensures Valid() && View() == INITIAL
    {
      status, cancel, cmd, done := IDLE, None, None, None;
      modes, told, reaped := map[], {}, {};
    }

    method BeginStop() returns (waitFor: Option<nat>)
      requires Valid()
      modifies this
      ensures Valid() && View() == Step(old(View()), StopBegin) && waitFor == cmd
    {
      var c := cancel;
      waitFor := done;
      if c.Some? {
        told := told + {c.value};
      }
    }

    method EndStop()
      requires Valid()
      modifies this
      ensures Valid() && View() == Step(old(View()), StopEnd)
    {
      if cmd.Some? {
        told := told + {cmd.value};
      }
      cancel := None;
      cmd := None;
      done := None;
      status := IDLE;
    }

    method InstallProcess(p: nat, mode: Mode, host: string)
      requires Valid() && Enabled(View(), Install(p, mode, host))
      modifies this
      ensures Valid() && View() == Step(old(View()), Install(p, mode, host))
    {
      cancel := Some(p);
      cmd := Some(p);
      done := Some(p);
      status := Status(Starting, Some(mode), host, "");
      modes := modes[p := mode];
    }

    method ReapProcess(p: nat, error: string)
      requires Valid() && Enabled(View(), Reap(p, error))
      modifies this
      ensures Valid() && View() == Step(old(View()), Reap(p, error))
    {
      if cmd == Some(p) {
        status := status.(state := Failed);
        status := status.(error := error);
      }
      reaped := reaped + {p};
    }

    method CaptureHost(p: nat, host: string)
      requires Valid() && Enabled(View(), Capture(p, host))
      modifies this
      ensures Valid() && View() == Step(old(View()), Capture(p, host))
    {
      if cmd == Some(p) {
        status := status.(state := Running);
        status := status.(hostname := host);
      }
    }

    method GraceOver(p: nat)
      requires Valid() && Enabled(View(), Grace(p))
      modifies this
      ensures Valid() && View() == Step(old(View()), Grace(p))
    {
      if cmd == Some(p) && status.state == Starting {
        status := status.(state := Running);
      }
    }
  }

  // ---- Runs ----

  ghost predicate Run(ss: seq<State>, es: seq<Event>) {
    && |ss| == |es| + 1 && ss[0] == INITIAL
    && forall i :: 0 <= i < |es| ==> Enabled(ss[i], es[i]) && ss[i + 1] == Step(ss[i], es[i])
  }

  /** Starts do not overlap: each takes the fields after a completed Stop, before any
      other start has taken them. */
  ghost predicate Serialised(es: seq<Event>) {
    forall i :: 0 <= i < |es| && es[i].Install? ==>
                  (forall j :: 0 <= j < i ==> !es[j].Install?)
                  || exists k :: 0 <= k < i && es[k].StopEnd? && forall j :: k < j < i ==> !es[j].Install?
  }

  ghost predicate Consistent(s: State) {
    && (s.status.state == Idle <==> s.cmd.None?)
    && (s.cmd.None? ==> s.status == IDLE)
    && (s.cmd.Some? ==> s.cmd.value in s.modes && s.status.mode == Some(s.modes[s.cmd.value]))
    && (s.status.state == Failed ==> s.cmd.value in s.reaped)
  }

  /** Every started process but the current one was told to end. */
  ghost predicate OthersTold(s: State) {
    forall p :: p in s.modes ==> s.cmd == Some(p) || p in s.told
  }

  lemma {:induction false} AlwaysConsistent(ss: seq<State>, es: seq<Event>, i: nat)
    requires Run(ss, es) && i <= |es|
    ensures Consistent(ss[i])
  {
    if i > 0 {
      AlwaysConsistent(ss, es, i - 1);
      assert Enabled(ss[i - 1], es[i - 1]) && ss[i] == Step(ss[i - 1], es[i - 1]);
    }
  }

  /** Nothing untold holds the fields. */
  ghost predicate Clear(s: State) {
    s.cmd.None? || s.cmd.value in s.told
  }

  /** Of all steps only taking the fields from an untold process can leave one behind, and
      nothing makes up for it later. */
  lemma InstallKeepsExactly(s: State, e: Event)
    requires Consistent(s) && Enabled(s, e)
    ensures OthersTold(Step(s, e)) <==> OthersTold(s) && (e.Install? ==> Clear(s))
  {
    var t := Step(s, e);
    if OthersTold(t) {
      forall p | p in s.modes ensures s.cmd == Some(p) || p in s.told {
        assert p in t.modes;
      }
      if e.Install? && s.cmd.Some? {
        assert s.cmd.value in t.modes;
      }
    }
  }

  lemma {:induction false} FreeAfterStop(ss: seq<State>, es: seq<Event>, k: nat, i: nat)
    requires Run(ss, es) && k <= i <= |es|
    requires ss[k].cmd.None? && forall j :: k <= j < i ==> !es[j].Install?
    ensures ss[i].cmd.None?
  {
    if k < i {
      FreeAfterStop(ss, es, k, i - 1);
      assert ss[i] == Step(ss[i - 1], es[i - 1]);
    }
  }

  lemma {:induction false} ClearAtStarts(ss: seq<State>, es: seq<Event>, i: nat)
    requires Run(ss, es) && i <= |es|
    ensures OthersTold(ss[i]) <==> forall k :: 0 <= k < i && es[k].Install? ==> Clear(ss[k])
  {
    if i > 0 {
      ClearAtStarts(ss, es, i - 1);
      AlwaysConsistent(ss, es, i - 1);
      assert Enabled(ss[i - 1], es[i - 1]) && ss[i] == Step(ss[i - 1], es[i - 1]);
      InstallKeepsExactly(ss[i - 1], es[i - 1]);
    }
  }

  predicate Stops(e: Event) {
    e.StopBegin? || e.StopEnd?
  }

  /** Events j and k are two starts with no other in between. */
  predicate NextStart(es: seq<Event>, j: int, k: int) {
    0 <= j < k < |es| && es[j].Install? && es[k].Install? && forall m :: j < m < k ==> !es[m].Install?
  }

  ghost predicate StopBetween(es: seq<Event>, j: nat, k: nat)
    requires j < k <= |es|
  {
    exists m :: j < m < k && Stops(es[m])
  }

  lemma {:induction false} ToldWereStarted(ss: seq<State>, es: seq<Event>, i: nat)
    requires Run(ss, es) && i <= |es|
    ensures forall p :: p in ss[i].told ==> p in ss[i].modes
  {
    if i > 0 {
      ToldWereStarted(ss, es, i - 1);
      AlwaysConsistent(ss, es, i - 1);
      assert Enabled(ss[i - 1], es[i - 1]) && ss[i] == Step(ss[i - 1], es[i - 1]);
    }
  }

  /** After a start the fields are clear exactly once a stop has begun or ended. */
  lemma {:induction false} ClearMeansStopped(ss: seq<State>, es: seq<Event>, j: nat, k: nat)
    requires Run(ss, es) && j < k <= |es| && es[j].Install?
    requires forall m :: j < m < k ==> !es[m].Install?
    ensures ss[k].cmd in {None, Some(es[j].p)}
    ensures Clear(ss[k]) <==> StopBetween(es, j, k)
  {
    var n := k - 1;
    assert Enabled(ss[n], es[n]) && ss[k] == Step(ss[n], es[n]);
    if n == j {
      ToldWereStarted(ss, es, j);
    } else {
      ClearMeansStopped(ss, es, j, n);
      assert StopBetween(es, j, k) <==> StopBetween(es, j, n) || Stops(es[n]);
    }
  }

  lemma {:induction false} StartBefore(ss: seq<State>, es: seq<Event>, k: nat) returns (j: int)
    requires Run(ss, es) && k < |es| && es[k].Install?
    ensures NextStart(es, j, k) || (j == -1 && ss[k].cmd.None?)
  {
    j := k - 1;
    while j >= 0 && !es[j].Install?
      invariant -1 <= j < k && forall m :: j < m < k ==> !es[m].Install?
    {
      j := j - 1;
    }
    if j == -1 {
      FreeAfterStop(ss, es, 0, k);
    }
  }

  /** Whatever captures and exits come in between, no process but the newest is left running
      untold exactly when between any two starts a stop has at least begun. */
  lemma NewestRunsExactly(ss: seq<State>, es: seq<Event>, i: nat)
    requires Run(ss, es) && i <= |es|
    ensures OthersTold(ss[i]) <==> forall j, k :: NextStart(es, j, k) && k < i ==> StopBetween(es, j, k)
  {
    ClearAtStarts(ss, es, i);
    forall j, k | NextStart(es, j, k) ensures Clear(ss[k]) <==> StopBetween(es, j, k) {
      ClearMeansStopped(ss, es, j, k);
    }
    forall k | 0 <= k < i && es[k].Install? && !Clear(ss[k])
      ensures exists j :: NextStart(es, j, k)
    {
      var j := StartBefore(ss, es, k);
    }
  }

  /** So with serialised starts no process but the newest is left running untold. */
  lemma OnlyTheNewestRuns(ss: seq<State>, es: seq<Event>, i: nat)
    requires Run(ss, es) && Serialised(es) && i <= |es|
    ensures OthersTold(ss[i])
  {
    forall j, k | NextStart(es, j, k) ensures StopBetween(es, j, k) {
      var m :| 0 <= m < k && es[m].StopEnd? && forall n :: m < n < k ==> !es[n].Install?;
      assert m > j;
    }
    NewestRunsExactly(ss, es, i);
  }

  /** Two overlapping starts do leave two processes nobody has told to end. */
  lemma OverlappingStartsLeak() returns (ss: seq<State>, es: seq<Event>)
    ensures Run(ss, es) && !OthersTold(ss[|es|])
  {
    es := [StopBegin, StopBegin, StopEnd, StopEnd, Install(1, TempTunnel, ""), Install(2, TempTunnel, "")];
    var a := Step(INITIAL, es[4]);
    var b := Step(a, es[5]);
    ss := [INITIAL, INITIAL, INITIAL, INITIAL, INITIAL, a, b];
    assert 1 in b.modes && b.cmd == Some(2) && 1 !in b.told;
  }

  ghost predicate Undisturbed(es: seq<Event>, from: nat, to: nat)
    requires from <= to <= |es|
  {
    forall j :: from <= j < to ==> !es[j].Install? && !es[j].StopEnd?
  }

  /** What a process's own exits, host names and grace periods make of a status; those of
      other processes are not heard. */
  function Heard(p: nat, first: Status, es: seq<Event>): Status {
    if es == [] then first
    else
      var before := Heard(p, first, es[..|es| - 1]);
      match es[|es| - 1]
      case Reap(q, error) => if q == p then before.(state := Failed, error := error) else before
      case Capture(q, host) => if q == p then before.(state := Running, hostname := host) else before
      case Grace(q) => if q == p && before.state == Starting then before.(state := Running) else before
      case _ => before
  }

  /** From its start until the next start or stop a process alone decides the status: the
      reapers, captures and grace periods of all others change nothing. */
  lemma {:induction false} StatusIsOwn(ss: seq<State>, es: seq<Event>, from: nat, to: nat)
    requires Run(ss, es) && from < to <= |es| && es[from].Install? && Undisturbed(es, from + 1, to)
    ensures ss[to].cmd == Some(es[from].p)
    ensures ss[to].status == Heard(es[from].p, Status(Starting, Some(es[from].mode), es[from].host, ""), es[from + 1..to])
  {
    assert Enabled(ss[to - 1], es[to - 1]) && ss[to] == Step(ss[to - 1], es[to - 1]);
    if to > from + 1 {
      StatusIsOwn(ss, es, from, to - 1);
      assert es[from + 1..to][..to - from - 2] == es[from + 1..to - 1];
    } else {
      assert es[from + 1..to] == [];
    }
  }

  /** Event j, with no start or completed stop since, is why s shows Running: its process
      printed the host name shown, or is a named one that outlived its grace period. */
  ghost predicate Earns(es: seq<Event>, j: int, i: nat, s: State)
    requires i <= |es|
  {
    && 0 <= j < i && Undisturbed(es, j, i) && s.cmd.Some?
    && (es[j] == Capture(s.cmd.value, s.status.hostname) || (es[j] == Grace(s.cmd.value) && s.status.mode == Some(NamedTunnel)))
  }

  /** Running is earned by the current process since it took the fields. */
  lemma {:induction false} RunningIsEarned(ss: seq<State>, es: seq<Event>, i: nat)
    requires Run(ss, es) && i <= |es| && ss[i].status.state == Running
    ensures exists j :: Earns(es, j, i, ss[i])
  {
    var e := es[i - 1];
    AlwaysConsistent(ss, es, i - 1);
    AlwaysConsistent(ss, es, i);
    assert Enabled(ss[i - 1], e) && ss[i] == Step(ss[i - 1], e);
    if ss[i - 1].status.state == Running && ss[i].status == ss[i - 1].status {
      RunningIsEarned(ss, es, i - 1);
      var j :| Earns(es, j, i - 1, ss[i - 1]);
      assert Earns(es, j, i, ss[i]);
    } else {
      assert Earns(es, i - 1, i, ss[i]);
    }
  }

  /** After the current process was reaped, and until the next start or stop, the status
      says Failed: exactly as long as no host name of that very process is captured
      late. */
  lemma {:induction false} FailedStaysFailed(ss: seq<State>, es: seq<Event>, from: nat, to: nat, p: nat)
    requires Run(ss, es) && from <= to <= |es|
    requires ss[from].cmd == Some(p) && ss[from].status.state == Failed
    requires Undisturbed(es, from, to)
    ensures ss[to].cmd == Some(p) && ss[to].status.state in {Failed, Running}
    ensures ss[to].status.state == Failed <==> forall j :: from <= j < to ==> !(es[j].Capture? && es[j].p == p)
  {
    AlwaysConsistent(ss, es, from);
    ReapedStays(ss, es, from, to, p);
    if from < to {
      FailedStaysFailed(ss, es, from, to - 1, p);
      assert ss[to] == Step(ss[to - 1], es[to - 1]);
      if es[to - 1].Capture? && es[to - 1].p == p {
        assert !(forall j :: from <= j < to ==> !(es[j].Capture? && es[j].p == p));
      }
    }
  }

  lemma {:induction false} ReapedStays(ss: seq<State>, es: seq<Event>, from: nat, to: nat, p: nat)
    requires Run(ss, es) && from <= to <= |es| && p in ss[from].reaped
    ensures p in ss[to].reaped && forall j :: from <= j < to && es[j].Reap? ==> es[j].p != p
  {
    if from < to {
      ReapedStays(ss, es, from, to - 1, p);
      assert Enabled(ss[to - 1], es[to - 1]) && ss[to] == Step(ss[to - 1], es[to - 1]);
    }
  }

  /** A named tunnel has no host name to capture, so once reaped it shows Failed until
      the next start or stop. */
  lemma NamedStaysFailed(ss: seq<State>, es: seq<Event>, from: nat, to: nat, p: nat, error: string)
    requires Run(ss, es) && from < to <= |es|
    requires es[from] == Reap(p, error) && ss[from].cmd == Some(p) && ss[from].modes[p] == NamedTunnel
    requires Undisturbed(es, from, to)
    ensures ss[to].status.state == Failed
  {
    AlwaysConsistent(ss, es, from);
    assert ss[from + 1] == Step(ss[from], es[from]);
    ModeStays(ss, es, from, to, p);
    FailedStaysFailed(ss, es, from + 1, to, p);
  }

  lemma {:induction false} ModeStays(ss: seq<State>, es: seq<Event>, from: nat, to: nat, p: nat)
    requires Run(ss, es) && from <= to <= |es| && p in ss[from].modes
    ensures p in ss[to].modes && ss[to].modes[p] == ss[from].modes[p]
    ensures ss[from].modes[p] == NamedTunnel ==> forall j :: from <= j < to ==> !(es[j].Capture? && es[j].p == p)
  {
    if from < to {
      ModeStays(ss, es, from, to - 1, p);
      assert Enabled(ss[to - 1], es[to - 1]) && ss[to] == Step(ss[to - 1], es[to - 1]);
    }
  }

  /** A quick tunnel can show Running after its process has ended. */
  lemma LateCaptureShowsRunning() returns (ss: seq<State>, es: seq<Event>)
    ensures Run(ss, es) && Serialised(es) && |es| == 3
    ensures es[|es| - 2].Reap? && ss[|es|].cmd == Some(es[|es| - 2].p) && ss[|es|].status.state == Running
  {
    es := [Install(1, TempTunnel, ""), Reap(1, "exit"), Capture(1, "x.trycloudflare.com")];
    var a := Step(INITIAL, es[0]);
    var b := Step(a, es[1]);
    var c := Step(b, es[2]);
    ss := [INITIAL, a, b, c];
  }

  /** After a completed stop the status stays Idle, and the process it found told, until
      the next start. */
  lemma {:induction false} StopStaysIdle(ss: seq<State>, es: seq<Event>, i: nat, to: nat)
    requires Run(ss, es) && i < to <= |es| && es[i].StopEnd?
    requires forall j :: i < j < to ==> !es[j].Install?
    ensures ss[to].status == IDLE && ss[to].cmd.None?
    ensures ss[i].cmd.Some? ==> ss[i].cmd.value in ss[to].told
  {
    assert ss[to] == Step(ss[to - 1], es[to - 1]);
    if to > i + 1 {
      StopStaysIdle(ss, es, i, to - 1);
    }
  }
}
