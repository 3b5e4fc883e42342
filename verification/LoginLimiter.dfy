/** The login rate limiter (internal/control/api/middleware.go). */
module LoginLimiter {

  /** The times after cutoff, in order. */
  function Recent(times: seq<int>, cutoff: int): seq<int> {
    if times == [] then []
    else
      var (before, t) := (Recent(times[..|times| - 1], cutoff), times[|times| - 1]);
      if t > cutoff then before + [t] else before
  }

  /** What a key's list becomes at a call, and whether the call is let through. */
  function Called(times: seq<int>, now: int, limit: int, window: int): (seq<int>, bool) {
    var kept := Recent(times, now - window);
    if |kept| >= limit then (kept, false) else (kept + [now], true)
  }

  lemma {:induction false} RecentIsShorter(times: seq<int>, cutoff: int)
    ensures |Recent(times, cutoff)| <= |times|
  {
    if times != [] {
      RecentIsShorter(times[..|times| - 1], cutoff);
    }
  }

  /** A slice: a backing array and how much of it is in use. */
  datatype Slice = Slice(buf: array<int>, len: nat)

  class RateLimiter {
    var hits: map<string, Slice>
    const limit: int
    const window: int

    ghost function Buffers(): set<array<int>>
      reads this
    {
      set key | key in hits :: hits[key].buf
    }

    ghost predicate Valid()
      reads this
    {
      (forall key :: key in hits ==> hits[key].len <= hits[key].buf.Length) &&
      forall a, b :: a in hits && b in hits && a != b ==> hits[a].buf != hits[b].buf
    }

    ghost function Times(key: string): seq<int>
      requires Valid()
      reads this, Buffers()
    {
      if key in hits then hits[key].buf[..hits[key].len] else []
    }

    constructor (limit: int, window: int)
      ensures Valid() && hits == map[] && this.limit == limit && this.window == window
    {
      hits := map[];
      this.limit, this.window := limit, window;
    }

    method Allow(key: string, now: int) returns (ok: bool)
      requires Valid()
      modifies this, Buffers()
      ensures Valid() && forall b :: b in Buffers() ==> b in old(Buffers()) || fresh(b)
      ensures (Times(key), ok) == Called(old(Times(key)), now, limit, window)
      ensures forall other :: other != key ==> Times(other) == old(Times(other))
    {
      var s := Find(key);
      var t;
      t, ok := Record(s, now, limit, window);
      Put(key, t);
    }

    method Put(key: string, s: Slice)
      requires Valid() && s.len <= s.buf.Length
      requires forall other :: other in hits && other != key ==> hits[other].buf != s.buf
      modifies this`hits
      ensures Valid() && hits == old(hits)[key := s]
    {
      hits := hits[key := s];
    }

    /** The key's slice, an empty one if it has none. */
    method Find(key: string) returns (s: Slice)
      requires Valid()
      ensures s.len <= s.buf.Length && s.buf[..s.len] == Times(key)
      ensures if key in hits then s == hits[key] else fresh(s.buf)
    {
      if key in hits {
        return hits[key];
      }
      var none := new int[0];
      return Slice(none, 0);
    }
  }

  method Record(s: Slice, now: int, limit: int, window: int) returns (t: Slice, ok: bool)
    requires s.len <= s.buf.Length
    modifies s.buf
    ensures t.len <= t.buf.Length && (t.buf == s.buf || fresh(t.buf))
    ensures (t.buf[..t.len], ok) == Called(old(s.buf[..s.len]), now, limit, window)
  {
    var kept := Compact(s.buf, s.len, now - window);
    if kept >= limit {
      return Slice(s.buf, kept), false;
    }
    var grown := Append(s.buf, kept, now);
    return Slice(grown, kept + 1), true;
  }

  lemma OneMoreTime(times: seq<int>, i: nat, cutoff: int)
    requires i < |times|
    ensures Recent(times[..i + 1], cutoff)
         == if times[i] > cutoff then Recent(times[..i], cutoff) + [times[i]] else Recent(times[..i], cutoff)
  {
    assert times[..i + 1][..i] == times[..i];
  }

  /** Keeps the later times in front, in the array they are read from. */
  method Compact(buf: array<int>, len: nat, cutoff: int) returns (kept: nat)
    requires len <= buf.Length
    modifies buf
    ensures kept <= len && buf[..kept] == Recent(old(buf[..len]), cutoff)
  {
    ghost var was := buf[..len];
    kept := 0;
    for i := 0 to len
      invariant kept <= i
      invariant buf[..kept] == Recent(was[..i], cutoff)
      invariant forall j :: i <= j < len ==> buf[j] == was[j]
    {
      var t := buf[i];
      OneMoreTime(was, i, cutoff);
      if t > cutoff {
        buf[kept] := t;
        kept := kept + 1;
      }
    }
    assert was[..len] == was;
  }

  /** append: in place when there is room, else in a larger array. */
  method Append(buf: array<int>, len: nat, x: int) returns (r: array<int>)
    requires len <= buf.Length
    modifies buf
    ensures r == buf || fresh(r)
    ensures len < r.Length && r[..len + 1] == old(buf[..len]) + [x]
  {
    if len < buf.Length {
      buf[len] := x;
      return buf;
    }
    r := new int[2 * len + 1];
    for i := 0 to len
      invariant r[..i] == old(buf[..i])
      invariant buf[..len] == old(buf[..len])
    {
      r[i] := buf[i];
    }
    r[len] := x;
  }

  // ---- Runs ----

  datatype Call = Call(key: string, now: int)

  datatype Rule = Rule(limit: int, window: int)

  function Stored(calls: seq<Call>, key: string, r: Rule): seq<int> {
    if calls == [] then []
    else
      var (before, c) := (Stored(calls[..|calls| - 1], key, r), calls[|calls| - 1]);
      if c.key == key then Called(before, c.now, r.limit, r.window).0 else before
  }

  predicate LetThrough(calls: seq<Call>, next: Call, r: Rule) {
    Called(Stored(calls, next.key, r), next.now, r.limit, r.window).1
  }

  /** Every time the key was ever let through. */
  function Accepted(calls: seq<Call>, key: string, r: Rule): seq<int> {
    if calls == [] then []
    else
      var (front, c) := (calls[..|calls| - 1], calls[|calls| - 1]);
      Accepted(front, key, r) + (if c.key == key && LetThrough(front, c, r) then [c.now] else [])
  }

  lemma OneMoreCall(front: seq<Call>, c: Call, key: string, r: Rule)
    ensures Accepted(front + [c], key, r)
         == Accepted(front, key, r) + if c.key == key && LetThrough(front, c, r) then [c.now] else []
    ensures Stored(front + [c], key, r)
         == if c.key == key then Called(Stored(front, key, r), c.now, r.limit, r.window).0 else Stored(front, key, r)
  {
    assert (front + [c])[..|front|] == front;
  }

  predicate Ticking(calls: seq<Call>) {
    forall i, j :: 0 <= i < j < |calls| ==> calls[i].now <= calls[j].now
  }

  lemma {:induction false} RecentTwice(times: seq<int>, a: int, b: int)
    requires a <= b
    ensures Recent(Recent(times, a), b) == Recent(times, b)
  {
    if times != [] {
      var (front, t) := (times[..|times| - 1], times[|times| - 1]);
      RecentTwice(front, a, b);
      if t > a {
        assert (Recent(front, a) + [t])[..|Recent(front, a)|] == Recent(front, a);
      }
    }
  }

  lemma RecentOfMore(times: seq<int>, t: int, cutoff: int)
    ensures Recent(times + [t], cutoff) == Recent(times, cutoff) + if t > cutoff then [t] else []
  {
    assert (times + [t])[..|times|] == times;
  }

  lemma StepRefines(stored: seq<int>, accepted: seq<int>, t: int, now: int, r: Rule)
    requires t <= now && Recent(stored, now - r.window) == Recent(accepted, now - r.window)
    ensures var (next, ok) := Called(stored, t, r.limit, r.window);
            Recent(next, now - r.window) == Recent(accepted + (if ok then [t] else []), now - r.window)
  {
    var (kept, cutoff) := (Recent(stored, t - r.window), now - r.window);
    RecentTwice(stored, t - r.window, cutoff);
    assert Recent(kept, cutoff) == Recent(accepted, cutoff);
    if |kept| >= r.limit {
      assert accepted + [] == accepted;
    } else {
      RecentOfMore(kept, t, cutoff);
      RecentOfMore(accepted, t, cutoff);
    }
  }

  /** The short list a key keeps stands for its whole history: at any later instant both
      hold the same times inside the window. */
  lemma {:induction false} ListRefinesHistory(calls: seq<Call>, key: string, now: int, r: Rule)
    requires forall i :: 0 <= i < |calls| ==> calls[i].now <= now
    ensures Recent(Stored(calls, key, r), now - r.window) == Recent(Accepted(calls, key, r), now - r.window)
  {
    if calls != [] {
      var (front, c) := (calls[..|calls| - 1], calls[|calls| - 1]);
      ListRefinesHistory(front, key, now, r);
      StepRefines(Stored(front, key, r), Accepted(front, key, r), c.now, now, r);
      assert Accepted(front, key, r) + [] == Accepted(front, key, r);
    }
  }

  predicate NoneAfter(calls: seq<Call>, now: int) {
    forall i :: 0 <= i < |calls| ==> calls[i].now <= now
  }

  /** A call is refused exactly when limit accepted calls of its key lie in the window. */
  lemma RefusedExactly(calls: seq<Call>, next: Call, r: Rule)
    requires NoneAfter(calls, next.now)
    ensures !LetThrough(calls, next, r) <==> |Recent(Accepted(calls, next.key, r), next.now - r.window)| >= r.limit
  {
    ListRefinesHistory(calls, next.key, next.now, r);
  }

  /** The run without its refused calls. */
  function Unrefused(calls: seq<Call>, r: Rule): seq<Call> {
    if calls == [] then []
    else
      var (front, c) := (calls[..|calls| - 1], calls[|calls| - 1]);
      Unrefused(front, r) + if LetThrough(front, c, r) then [c] else []
  }

  lemma {:induction false} UnrefusedNoneAfter(calls: seq<Call>, r: Rule, now: int)
    requires NoneAfter(calls, now)
    ensures NoneAfter(Unrefused(calls, r), now)
  {
    if calls != [] {
      UnrefusedNoneAfter(calls[..|calls| - 1], r, now);
    }
  }

  lemma {:induction false} RefusalsLeaveNoTrace(calls: seq<Call>, key: string, r: Rule)
    requires Ticking(calls)
    ensures Accepted(Unrefused(calls, r), key, r) == Accepted(calls, key, r)
  {
    if calls != [] {
      var (front, c) := (calls[..|calls| - 1], calls[|calls| - 1]);
      RefusalsLeaveNoTrace(front, key, r);
      if LetThrough(front, c, r) {
        RefusalsLeaveNoTrace(front, c.key, r);
        SameVerdict(front, c, r);
        OneMoreCall(Unrefused(front, r), c, key, r);
      } else {
        assert Unrefused(calls, r) == Unrefused(front, r);
        assert Accepted(calls, key, r) == Accepted(front, key, r);
      }
    }
  }

  lemma SameVerdict(calls: seq<Call>, next: Call, r: Rule)
    requires NoneAfter(calls, next.now) && Accepted(Unrefused(calls, r), next.key, r) == Accepted(calls, next.key, r)
    ensures LetThrough(calls, next, r) <==> LetThrough(Unrefused(calls, r), next, r)
  {
    UnrefusedNoneAfter(calls, r, next.now);
    RefusedExactly(calls, next, r);
    RefusedExactly(Unrefused(calls, r), next, r);
  }

  /** Refusals never extend a lockout: the next call fares as if they had not been made. */
  lemma LockoutIsNotExtended(calls: seq<Call>, next: Call, r: Rule)
    requires Ticking(calls) && NoneAfter(calls, next.now)
    ensures LetThrough(calls, next, r) <==> LetThrough(Unrefused(calls, r), next, r)
  {
    RefusalsLeaveNoTrace(calls, next.key, r);
    SameVerdict(calls, next, r);
  }

  /** The times in (since, until]. */
  function Between(times: seq<int>, since: int, until: int): nat {
    if times == [] then 0
    else
      Between(times[..|times| - 1], since, until) + (if since < times[|times| - 1] <= until then 1 else 0)
  }

  lemma {:induction false} BetweenIsRecent(times: seq<int>, since: int, until: int)
    ensures Between(times, since, until) <= |Recent(times, since)|
  {
    if times != [] {
      BetweenIsRecent(times[..|times| - 1], since, until);
    }
  }

  lemma RecentShrinks(times: seq<int>, a: int, b: int)
    requires a <= b
    ensures |Recent(times, b)| <= |Recent(times, a)|
  {
    RecentTwice(times, a, b);
    RecentIsShorter(Recent(times, a), b);
  }

  lemma BetweenOfMore(times: seq<int>, t: int, since: int, until: int)
    ensures Between(times + [t], since, until) == Between(times, since, until) + if since < t <= until then 1 else 0
  {
    assert (times + [t])[..|times|] == times;
  }

  /** No window's length of time, wherever it starts, holds more than limit accepted
      calls of one key. */
  lemma {:induction false} WindowHoldsLimit(calls: seq<Call>, key: string, since: int, r: Rule)
    requires Ticking(calls) && r.limit >= 0
    ensures Between(Accepted(calls, key, r), since, since + r.window) <= r.limit
  {
    if calls != [] {
      var (front, c) := (calls[..|calls| - 1], calls[|calls| - 1]);
      WindowHoldsLimit(front, key, since, r);
      var before := Accepted(front, key, r);
      if c.key == key && LetThrough(front, c, r) {
        BetweenOfMore(before, c.now, since, since + r.window);
        if since < c.now <= since + r.window {
          RefusedExactly(front, c, r);
          BetweenIsRecent(before, since, since + r.window);
          RecentShrinks(before, c.now - r.window, since);
        }
      } else {
        assert Accepted(calls, key, r) == before;
      }
    }
  }
}
