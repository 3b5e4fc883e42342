/** Which probe rounds are pooled (internal/control/cdnstats/limiter.go). */
module Limiter {
  import opened Common
  import opened ProbeRound

  const AUTO_GAP: int := 10 * MINUTE
  const FORGET_AFTER: int := 24 * HOUR

  datatype Policy = Policy(intervalSec: int, sameRounds: int, cooldownSec: int) {
    predicate Valid() {
      && 30 <= intervalSec <= 86400
      && 1 <= sameRounds <= 20
      && 0 <= cooldownSec <= 7 * 86400
    }

    function Interval(): int { intervalSec * SECOND }
    function Cooldown(): int { cooldownSec * SECOND }
  }

  datatype LimitState = LimitState(
    lastAuto: Stamp,
    lastManual: Stamp,
    lastWinner: string,
    sameRounds: int,
    coolingUntil: Stamp,
    touched: int
  )

  datatype Verdict = Verdict(accept: bool, reason: string, coolingUntil: Stamp)

  /** What a verdict depends on: the kind of round, who won it, and whether it
      shows the address in use to be beaten. */
  datatype Round = Round(manual: bool, winner: string, notBest: bool)

  ghost function RoundOf(r: Report, cleaned: seq<Sample>): Round {
    Round(r.manual, Winner(cleaned), NotBest(r.currentIP, cleaned))
  }

  function KeyOf(subKey: string, netKey: string): string {
    subKey + ['\0'] + netKey
  }

  /** Limits do not leak between subscriptions or networks: a token hash holds no
      NUL, so two rounds share a key only when both parts agree. */
  lemma KeySeparates(s1: string, n1: string, s2: string, n2: string)
    requires '\0' !in s1 && '\0' !in s2
    requires KeyOf(s1, n1) == KeyOf(s2, n2)
    ensures s1 == s2 && n1 == n2
  {
    var k1, k2 := KeyOf(s1, n1), KeyOf(s2, n2);
    assert k1[|s1|] == '\0' && k2[|s2|] == '\0';
    assert forall i :: 0 <= i < |s1| ==> k1[i] == s1[i];
    assert forall i :: 0 <= i < |s2| ==> k2[i] == s2[i];
    assert |s1| == |s2|;
    assert s1 == k1[..|s1|] && n1 == k1[|s1| + 1..];
    assert s2 == k2[..|s2|] && n2 == k2[|s2| + 1..];
  }

  const BLANK: LimitState := LimitState(Never, Never, "", 0, Never, 0)

  predicate Forgettable(st: LimitState, now: int) {
    now - st.touched > FORGET_AFTER && After(now, st.coolingUntil)
  }

  function Swept(state: map<string, LimitState>, now: int): map<string, LimitState> {
    map k | k in state && !Forgettable(state[k], now) :: state[k]
  }

  /** One round against one key's memory. */
  function Decide(st: LimitState, now: int, r: Round, p: Policy): (LimitState, Verdict) {
    if !r.manual then
      if Within(now, st.lastAuto, AUTO_GAP) then (st, Verdict(false, "too_soon", Never))
      else (st.(lastAuto := At(now)), Verdict(true, "", Never))
    else if Within(now, st.lastManual, p.Interval()) then (st, Verdict(false, "too_soon", Never))
    else if Before(now, st.coolingUntil) && !r.notBest then (st, Verdict(false, "cooling", st.coolingUntil))
    else
      var same := if r.winner != "" && r.winner == st.lastWinner then st.sameRounds + 1 else 1;
      if same >= p.sameRounds && p.cooldownSec > 0 then
        var until := At(now + p.Cooldown());
        (st.(lastManual := At(now), lastWinner := r.winner, sameRounds := 0, coolingUntil := until), Verdict(true, "", until))
      else
        (st.(lastManual := At(now), lastWinner := r.winner, sameRounds := same), Verdict(true, "", Never))
  }

  function MemoryOf(state: map<string, LimitState>, key: string, now: int): LimitState {
    (if key in state then state[key] else BLANK).(touched := now)
  }

  function CheckSpec(state: map<string, LimitState>, now: int, key: string, r: Round, p: Policy)
    : (map<string, LimitState>, Verdict)
  {
    var kept := Swept(state, now);
    var (st, v) := Decide(MemoryOf(kept, key, now), now, r, p);
    (kept[key := st], v)
  }

  class Limiter {
    var state: map<string, LimitState>

    constructor ()
      ensures state == map[]
    {
      state := map[];
    }

    method Check(now: int, subKey: string, r: Report, cleaned: seq<Sample>, p: Policy) returns (v: Verdict)
      modifies this
      ensures (state, v) == CheckSpec(old(state), now, KeyOf(subKey, r.netKey), RoundOf(r, cleaned), p)
    {
      Sweep(now);
      ghost var kept := state;
      var key := KeyOf(subKey, r.netKey);
      var st := if key in state then state[key] else BLANK;
      st := st.(touched := now);
      state := state[key := st];
      if !r.manual {
        if Within(now, st.lastAuto, AUTO_GAP) {
          return Verdict(false, "too_soon", Never);
        }
        st := st.(lastAuto := At(now));
        state := state[key := st];
        assert state == kept[key := st];
        return Verdict(true, "", Never);
      }
      if Within(now, st.lastManual, p.intervalSec * SECOND) {
        return Verdict(false, "too_soon", Never);
      }
      if Before(now, st.coolingUntil) {
        var beaten := CurrentNotBest(r.currentIP, cleaned);
        if !beaten {
          return Verdict(false, "cooling", st.coolingUntil);
        }
      }
      st := st.(lastManual := At(now));
      var winner := Fastest(cleaned);
      if winner != "" && winner == st.lastWinner {
        st := st.(sameRounds := st.sameRounds + 1);
      } else {
        st := st.(lastWinner := winner, sameRounds := 1);
      }
      v := Verdict(true, "", Never);
      if st.sameRounds >= p.sameRounds && p.cooldownSec > 0 {
        st := st.(coolingUntil := At(now + p.cooldownSec * SECOND));
        st := st.(sameRounds := 0);
        v := v.(coolingUntil := st.coolingUntil);
      }
      state := state[key := st];
      assert state == kept[key := st];
    }

    method Sweep(now: int)
      modifies this
      ensures state == Swept(old(state), now)
    {
      var todo := state.Keys;
      while todo != {}
        invariant todo <= state.Keys <= old(state).Keys
        invariant forall k :: k in state ==> state[k] == old(state)[k]
        invariant forall k :: k in old(state) && k !in todo ==> (k in state <==> !Forgettable(old(state)[k], now))
        decreases todo
      {
        var k :| k in todo;
        todo := todo - {k};
        var st := state[k];
        if now - st.touched > FORGET_AFTER && After(now, st.coolingUntil) {
          state := state - {k};
        }
      }
    }
  }
}
