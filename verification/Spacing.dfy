/** Counting events that keep a minimum distance. */
module Spacing {

  /** The times of the chosen events, taken in order, are at least gap apart. */
  ghost predicate Spaced(chosen: set<nat>, at: nat -> int, gap: int) {
    forall i, j :: i in chosen && j in chosen && i < j ==> at(j) - at(i) >= gap
  }

  lemma Latest(chosen: set<nat>) returns (m: nat)
    requires chosen != {}
    ensures m in chosen && forall i :: i in chosen ==> i <= m
  {
    var one :| one in chosen;
    var rest := chosen - {one};
    assert chosen == rest + {one};
    if rest == {} {
      m := one;
    } else {
      var n := Latest(rest);
      m := if n > one then n else one;
    }
  }

  /** n such events span at least n - 1 gaps. */
  lemma {:induction false} SpanBound(chosen: set<nat>, at: nat -> int, from: int, length: int, gap: int)
    requires gap > 0 && length >= 0
    requires Spaced(chosen, at, gap)
    requires forall i :: i in chosen ==> from <= at(i) <= from + length
    ensures (|chosen| - 1) * gap <= length
    decreases |chosen|
  {
    if chosen != {} {
      var m := Latest(chosen);
      var rest := chosen - {m};
      assert |chosen| == |rest| + 1;
      if rest != {} {
        var one :| one in rest;
        assert at(m) - at(one) >= gap;
        forall i | i in rest
          ensures from <= at(i) <= from + (length - gap)
        {
          assert i < m;
        }
        SpanBound(rest, at, from, length - gap, gap);
      }
    }
  }

  lemma Quotient(n: int, length: int, gap: int)
    requires gap > 0 && length >= 0 && (n - 1) * gap <= length
    ensures n <= length / gap + 1
  {
    var q := length / gap;
    assert length == q * gap + length % gap;
    assert (n - 1) * gap < (q + 1) * gap;
  }

  /** A window of the given length holds at most length / gap + 1 such events. */
  lemma WindowBound(chosen: set<nat>, at: nat -> int, from: int, length: int, gap: int)
    requires gap > 0 && length >= 0
    requires Spaced(chosen, at, gap)
    requires forall i :: i in chosen ==> from <= at(i) <= from + length
    ensures |chosen| <= length / gap + 1
  {
    SpanBound(chosen, at, from, length, gap);
    Quotient(|chosen|, length, gap);
  }
}
