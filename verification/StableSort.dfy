/** What sort.SliceStable promises: the one ordered rearrangement that keeps ties in
    the order they came. */
module StableSort {

  /** A comparison a sort may rely on. */
  ghost predicate StrictWeak<T(!new)>(before: (T, T) -> bool) {
    (forall a, b :: before(a, b) ==> !before(b, a)) &&
    (forall a, b, c :: before(a, c) ==> before(a, b) || before(b, c))
  }

  /** x placed after everything it does not come before. */
  function Insert<T>(x: T, s: seq<T>, before: (T, T) -> bool): seq<T> {
    if s == [] || !before(x, s[|s| - 1]) then s + [x]
    else Insert(x, s[..|s| - 1], before) + [s[|s| - 1]]
  }

  function Sorted<T>(s: seq<T>, before: (T, T) -> bool): seq<T> {
    if s == [] then [] else Insert(s[|s| - 1], Sorted(s[..|s| - 1], before), before)
  }

  ghost predicate Ordered<T(!new)>(s: seq<T>, before: (T, T) -> bool) {
    forall i, j :: 0 <= i < j < |s| ==> !before(s[j], s[i])
  }

  predicate Tie<T>(a: T, b: T, before: (T, T) -> bool) {
    !before(a, b) && !before(b, a)
  }

  /** The elements that tie with c, in order. */
  function Ties<T>(s: seq<T>, c: T, before: (T, T) -> bool): seq<T> {
    if s == [] then [] else (if Tie(s[0], c, before) then [s[0]] else []) + Ties(s[1..], c, before)
  }

  lemma {:induction false} TiesOfSum<T>(s: seq<T>, t: seq<T>, c: T, before: (T, T) -> bool)
    ensures Ties(s + t, c, before) == Ties(s, c, before) + Ties(t, c, before)
  {
    if s == [] {
      assert s + t == t;
    } else {
      assert (s + t)[1..] == s[1..] + t;
      TiesOfSum(s[1..], t, c, before);
      var first := if Tie(s[0], c, before) then [s[0]] else [];
      assert Ties(s + t, c, before) == first + Ties(s[1..] + t, c, before);
      assert Ties(s, c, before) == first + Ties(s[1..], c, before);
    }
  }

  lemma {:induction false} InsertKeepsElements<T>(x: T, s: seq<T>, before: (T, T) -> bool)
    ensures multiset(Insert(x, s, before)) == multiset(s) + multiset{x}
  {
    if s != [] && before(x, s[|s| - 1]) {
      InsertKeepsElements(x, s[..|s| - 1], before);
      assert s == s[..|s| - 1] + [s[|s| - 1]];
    }
  }

  lemma {:induction false} SortedKeepsElements<T>(s: seq<T>, before: (T, T) -> bool)
    ensures multiset(Sorted(s, before)) == multiset(s)
    ensures |Sorted(s, before)| == |s|
    ensures forall x :: x in Sorted(s, before) <==> x in s
  {
    if s != [] {
      SortedKeepsElements(s[..|s| - 1], before);
      InsertKeepsElements(s[|s| - 1], Sorted(s[..|s| - 1], before), before);
      assert s == s[..|s| - 1] + [s[|s| - 1]];
    }
    assert |multiset(Sorted(s, before))| == |Sorted(s, before)| && |multiset(s)| == |s|;
    assert forall x :: x in Sorted(s, before) <==> x in multiset(Sorted(s, before));
    assert forall x :: x in s <==> x in multiset(s);
  }

  lemma {:induction false} InsertKeepsOrder<T(!new)>(x: T, s: seq<T>, before: (T, T) -> bool)
    requires StrictWeak(before) && Ordered(s, before)
    ensures Ordered(Insert(x, s, before), before)
  {
    if s != [] && before(x, s[|s| - 1]) {
      var (front, last) := (s[..|s| - 1], s[|s| - 1]);
      InsertKeepsOrder(x, front, before);
      InsertKeepsElements(x, front, before);
      var r := Insert(x, front, before);
      forall i | 0 <= i < |r| ensures !before(last, r[i]) {
        assert r[i] in multiset(r);
        assert r[i] == x || r[i] in multiset(front);
        assert r[i] == x || r[i] in front;
      }
    } else if s != [] {
      assert forall i :: 0 <= i < |s| ==> !before(x, s[i]);
    }
  }

  lemma {:induction false} SortedIsOrdered<T(!new)>(s: seq<T>, before: (T, T) -> bool)
    requires StrictWeak(before)
    ensures Ordered(Sorted(s, before), before)
  {
    if s != [] {
      SortedIsOrdered(s[..|s| - 1], before);
      InsertKeepsOrder(s[|s| - 1], Sorted(s[..|s| - 1], before), before);
    }
  }

  lemma {:induction false} InsertKeepsTies<T(!new)>(x: T, s: seq<T>, c: T, before: (T, T) -> bool)
    requires StrictWeak(before)
    ensures Ties(Insert(x, s, before), c, before) == Ties(s, c, before) + Ties([x], c, before)
  {
    if s == [] || !before(x, s[|s| - 1]) {
      TiesOfSum(s, [x], c, before);
    } else {
      var (front, last) := (s[..|s| - 1], s[|s| - 1]);
      InsertKeepsTies(x, front, c, before);
      TiesOfSum(Insert(x, front, before), [last], c, before);
      TiesOfSum(front, [last], c, before);
      assert s == front + [last];
      assert Ties([x], c, before) == [] || Ties([last], c, before) == [];
    }
  }

  /** Ties keep the order they came in. */
  lemma {:induction false} SortedIsStable<T(!new)>(s: seq<T>, c: T, before: (T, T) -> bool)
    requires StrictWeak(before)
    ensures Ties(Sorted(s, before), c, before) == Ties(s, c, before)
  {
    if s != [] {
      var (front, last) := (s[..|s| - 1], s[|s| - 1]);
      SortedIsStable(front, c, before);
      InsertKeepsTies(last, Sorted(front, before), c, before);
      TiesOfSum(front, [last], c, before);
      assert s == front + [last];
    }
  }

  lemma {:induction false} TiesAreElements<T>(s: seq<T>, c: T, x: T, before: (T, T) -> bool)
    ensures x in Ties(s, c, before) <==> x in s && Tie(x, c, before)
  {
    if s != [] {
      TiesAreElements(s[1..], c, x, before);
      assert x in s <==> x == s[0] || x in s[1..];
    }
  }

  lemma FirstElementsAgree<T(!new)>(s: seq<T>, t: seq<T>, before: (T, T) -> bool)
    requires StrictWeak(before) && Ordered(s, before) && Ordered(t, before)
    requires forall c :: Ties(s, c, before) == Ties(t, c, before)
    requires s != []
    ensures t != [] && t[0] == s[0]
  {
    var a := s[0];
    TiesAreElements(s, a, a, before);
    TiesAreElements(t, a, a, before);
    assert a in t;
    var b := t[0];
    TiesAreElements(t, b, b, before);
    TiesAreElements(s, b, b, before);
    assert b in s;
    assert Tie(a, b, before);
    assert Ties(s, a, before)[0] == a && Ties(t, a, before)[0] == b;
  }

  /** There is only one ordered rearrangement that keeps ties in order, so it does not
      matter how the sort is done. */
  lemma {:induction false} StableOrderIsUnique<T(!new)>(s: seq<T>, t: seq<T>, before: (T, T) -> bool)
    requires StrictWeak(before) && Ordered(s, before) && Ordered(t, before)
    requires forall c :: Ties(s, c, before) == Ties(t, c, before)
    ensures s == t
  {
    if s == [] {
      if t != [] {
        TiesAreElements(t, t[0], t[0], before);
        TiesAreElements(s, t[0], t[0], before);
      }
    } else {
      FirstElementsAgree(s, t, before);
      forall c ensures Ties(s[1..], c, before) == Ties(t[1..], c, before) {
        var n := if Tie(s[0], c, before) then 1 else 0;
        assert Ties(s[1..], c, before) == Ties(s, c, before)[n..];
        assert Ties(t[1..], c, before) == Ties(t, c, before)[n..];
      }
      StableOrderIsUnique(s[1..], t[1..], before);
      assert s == [s[0]] + s[1..] && t == [t[0]] + t[1..];
    }
  }
}
