/** The size-capped log file (internal/logcap/logcap.go). */
module LogCap {
  import opened Common

  type Bytes = seq<bv8>

  /** The file at path, the one at path.1, whether the open handle is the former (else it
      is the latter), and the running count of bytes. */
  datatype Log = Log(path: Option<Bytes>, older: Option<Bytes>, attached: bool, size: int) {
    ghost predicate Valid() {
      (attached <==> path.Some?) && (attached || older.Some?)
    }

    function Current(): Bytes { path.GetOr([]) }

    /** What is on disk, oldest first. */
    function All(): Bytes { older.GetOr([]) + path.GetOr([]) }
  }

  /** How the system calls of one operation turn out. */
  datatype Luck = Luck(stat: bool, rename: bool, open: bool)

  function Appended(l: Log, p: Bytes): Log {
    if l.attached then l.(path := Some(l.Current() + p)) else l.(older := Some(l.older.GetOr([]) + p))
  }

  /** The size of the file the handle is open on. */
  function RealSize(l: Log): int {
    if l.attached then |l.Current()| else |l.older.GetOr([])|
  }

  function Rotated(l: Log, luck: Luck): Log {
    if !luck.rename || l.path.None? then l
    else if !luck.open then l.(path := None, older := l.path, attached := false)
    else Log(Some([]), l.path, true, 0)
  }

  /** The log after p was appended; a failed write may have appended a part only. */
  function Written(l: Log, p: Bytes, max: int, luck: Luck): Log {
    var grown := Appended(l, p).(size := l.size + |p|);
    if grown.size <= max then grown
    else
      var counted := if luck.stat then grown.(size := RealSize(grown)) else grown;
      if counted.size > max then Rotated(counted, luck) else counted
  }

  function Cut(file: Option<Bytes>, keep: nat): Option<Bytes> {
    if file.Some? && keep < |file.value| then Some(file.value[..keep]) else file
  }

  /** One of the two files is truncated behind the writer's back, if it is there at all.
      "Clear logs" cuts path and then path.1 to nothing. */
  function Truncated(l: Log, older: bool, keep: nat): Log {
    if older then l.(older := Cut(l.older, keep)) else l.(path := Cut(l.path, keep))
  }

  function Opened(path: Option<Bytes>, older: Option<Bytes>, max: int, luck: Luck): Log {
    var l := Log(Some(path.GetOr([])), older, true, if luck.stat then |path.GetOr([])| else 0);
    if l.size > max then Rotated(l, luck) else l
  }

  class File {
    var path: Option<Bytes>
    var older: Option<Bytes>
    var attached: bool
    var size: int
    const max: int

    ghost function State(): Log
      reads this
    {
      Log(path, older, attached, size)
    }

    constructor (path: Option<Bytes>, older: Option<Bytes>, max: int, luck: Luck)
      ensures State() == Opened(path, older, max, luck) && State().Valid() && this.max == max
    {
      this.path, this.older, attached, this.max := Some(path.GetOr([])), older, true, max;
      size := if luck.stat then |path.GetOr([])| else 0;
      new;
      if size > max {
        Rotate(luck);
      }
    }

    method Write(p: Bytes, luck: Luck)
      requires State().Valid()
      modifies this
      ensures State() == Written(old(State()), p, max, luck) && State().Valid()
    {
      if attached {
        path := Some(path.GetOr([]) + p);
      } else {
        older := Some(older.GetOr([]) + p);
      }
      size := size + |p|;
      if size > max {
        if luck.stat {
          size := if attached then |path.GetOr([])| else |older.GetOr([])|;
        }
        if size > max {
          Rotate(luck);
        }
      }
    }

    method Rotate(luck: Luck)
      requires State().Valid()
      modifies this
      ensures State() == Rotated(old(State()), luck) && State().Valid()
    {
      if !luck.rename || path.None? {
        return;
      }
      path, older, attached := None, path, false;
      if !luck.open {
        return;
      }
      path, attached, size := Some([]), true, 0;
    }
  }

  // ---- Runs ----

  datatype Event = Write(p: Bytes, luck: Luck) | Truncate(older: bool, keep: nat)

  function Step(l: Log, e: Event, max: int): Log {
    if e.Write? then Written(l, e.p, max, e.luck) else Truncated(l, e.older, e.keep)
  }

  function Run(l: Log, es: seq<Event>, max: int): Log {
    if es == [] then l else Step(Run(l, es[..|es| - 1], max), es[|es| - 1], max)
  }

  /** Renaming and reopening work. */
  predicate Rotates(es: seq<Event>) {
    forall i :: 0 <= i < |es| && es[i].Write? ==> es[i].luck.rename && es[i].luck.open
  }

  /** While the handle is on path, the count never falls behind the file. */
  ghost predicate Counted(l: Log) {
    l.Valid() && (l.attached ==> l.size >= |l.Current()|)
  }

  /** A log is opened with such a count exactly if its size could be read or it was empty. */
  lemma OpenCounts(path: Option<Bytes>, older: Option<Bytes>, max: int, luck: Luck)
    requires max >= 0
    ensures Counted(Opened(path, older, max, luck)) <==> luck.stat || path.GetOr([]) == []
  {
  }

  /** Nothing ever makes the count fall behind, whatever fails and whatever is truncated. */
  lemma {:induction false} StaysCounted(l: Log, es: seq<Event>, max: int)
    requires Counted(l)
    ensures Counted(Run(l, es, max))
  {
    if es != [] {
      StaysCounted(l, es[..|es| - 1], max);
    }
  }

  /** What a write leaves in the open file is within the ceiling exactly when the appended
      text still fits, or a handle on path can be moved to a new file. */
  lemma WriteBounds(l: Log, p: Bytes, max: int, luck: Luck)
    requires Counted(l) && max >= 0
    ensures RealSize(Written(l, p, max, luck)) <= max
       <==> RealSize(Appended(l, p)) <= max || (l.attached && luck.rename && luck.open)
  {
  }

  /** After every write of the run the open file is within the ceiling. */
  ghost predicate AlwaysWithin(l: Log, es: seq<Event>, max: int) {
    forall k :: 0 <= k < |es| && es[k].Write? ==> RealSize(Run(l, es[..k + 1], max)) <= max
  }

  /** Write k has room in the open file, or can rotate it. */
  ghost predicate Fits(l: Log, es: seq<Event>, k: nat, max: int)
    requires k < |es| && es[k].Write?
  {
    var before := Run(l, es[..k], max);
    RealSize(before) + |es[k].p| <= max || (before.attached && es[k].luck.rename && es[k].luck.open)
  }

  /** Over any run, whatever fails and whatever is truncated, the ceiling is kept exactly
      when each write finds room or can rotate. */
  lemma CeilingKeptExactly(l: Log, es: seq<Event>, max: int)
    requires Counted(l) && max >= 0
    ensures AlwaysWithin(l, es, max) <==> forall k :: 0 <= k < |es| && es[k].Write? ==> Fits(l, es, k, max)
  {
    forall k | 0 <= k < |es| && es[k].Write?
      ensures RealSize(Run(l, es[..k + 1], max)) <= max <==> Fits(l, es, k, max)
    {
      assert es[..k + 1][..k] == es[..k];
      StaysCounted(l, es[..k], max);
      WriteBounds(Run(l, es[..k], max), es[k].p, max, es[k].luck);
    }
  }

  /** Write k moves the file away and gets no new one. */
  ghost predicate Detaches(l: Log, es: seq<Event>, k: nat, max: int)
    requires k < |es|
  {
    Run(l, es[..k], max).attached && !Run(l, es[..k + 1], max).attached
  }

  /** The handle is on path for as long as no write detaches it, and never again after. */
  lemma {:induction false} AttachedExactly(l: Log, es: seq<Event>, max: int)
    requires l.Valid()
    ensures Run(l, es, max).Valid()
    ensures Run(l, es, max).attached <==> l.attached && forall k :: 0 <= k < |es| ==> !Detaches(l, es, k, max)
  {
    if es != [] {
      var n := |es| - 1;
      AttachedExactly(l, es[..n], max);
      forall k | 0 <= k < n ensures Detaches(l, es[..n], k, max) <==> Detaches(l, es, k, max) {
        assert es[..n][..k] == es[..k] && es[..n][..k + 1] == es[..k + 1];
      }
      assert es[..n + 1] == es;
      assert Detaches(l, es, n, max) <==> Run(l, es[..n], max).attached && !Run(l, es, max).attached;
    }
  }

  /** A reopen that fails after a rename that did not is what detaches. */
  lemma DetachesMeans(l: Log, es: seq<Event>, k: nat, max: int)
    requires k < |es| && Detaches(l, es, k, max)
    ensures es[k].Write? && es[k].luck.rename && !es[k].luck.open
  {
    assert es[..k + 1][..k] == es[..k];
  }

  /** No rename is followed by a failed reopen. */
  predicate Reopens(es: seq<Event>) {
    forall i :: 0 <= i < |es| && es[i].Write? && es[i].luck.rename ==> es[i].luck.open
  }

  lemma StaysAttached(l: Log, es: seq<Event>, max: int)
    requires l.Valid() && l.attached && Reopens(es)
    ensures Run(l, es, max).attached
  {
    forall k | 0 <= k < |es| ensures !Detaches(l, es, k, max) {
      if Detaches(l, es, k, max) {
        DetachesMeans(l, es, k, max);
      }
    }
    AttachedExactly(l, es, max);
  }

  /** So after every write whose rename works the file is within the ceiling, whatever was
      truncated to whatever length, whether or not sizes could be read and however many
      renames failed before, as long as no rename was followed by a failed reopen. */
  lemma NeverAboveMax(l: Log, es: seq<Event>, max: int)
    requires Counted(l) && l.attached && max >= 0
    requires Reopens(es)
    requires es != [] && es[|es| - 1].Write? && es[|es| - 1].luck.rename
    ensures |Run(l, es, max).Current()| <= max
  {
    var n := |es| - 1;
    StaysAttached(l, es[..n], max);
    StaysCounted(l, es[..n], max);
    WriteBounds(Run(l, es[..n], max), es[n].p, max, es[n].luck);
  }

  /** The ceiling is lost when a file is renamed and no new one can be opened: the handle
      follows the full file to path.1, and later writes only make it longer. */
  lemma LostReopenExceeds(l: Log, p: Bytes, q: Bytes, max: int, stat: bool, later: Luck)
    requires Counted(l) && l.attached && max >= 0 && |l.Current() + p| > max
    ensures var es := [Write(p, Luck(stat, true, false)), Write(q, later)];
            && !Run(l, es[..1], max).attached && !Run(l, es, max).attached
            && RealSize(Run(l, es[..1], max)) == |l.Current() + p| > max
            && RealSize(Run(l, es, max)) == |l.Current() + p + q| > max
  {
    var es := [Write(p, Luck(stat, true, false)), Write(q, later)];
    assert es[..2] == es && es[..1][..0] == [] && es[..1] == [es[0]];
    assert Run(l, es[..1], max) == Written(l, p, max, Luck(stat, true, false));
  }

  function Longest(m: int, n: int): int {
    if m >= n then m else n
  }

  /** And the one before it exceeds the ceiling by one write at most, unless it was longer
      from the start. */
  lemma {:induction false} OlderIsBounded(l: Log, es: seq<Event>, max: int, longest: nat)
    requires Counted(l) && l.attached && Rotates(es) && max >= 0 && |l.Current()| <= max
    requires forall i :: 0 <= i < |es| && es[i].Write? ==> |es[i].p| <= longest
    ensures |Run(l, es, max).Current()| <= max
    ensures |Run(l, es, max).older.GetOr([])| <= Longest(max + longest, |l.older.GetOr([])|)
  {
    if es != [] {
      OlderIsBounded(l, es[..|es| - 1], max, longest);
      StaysCounted(l, es[..|es| - 1], max);
      StaysAttached(l, es[..|es| - 1], max);
    }
  }

  /** Everything in start and then written, oldest first. */
  function Stream(start: Bytes, es: seq<Event>): Bytes {
    if es == [] then start
    else Stream(start, es[..|es| - 1]) + (if es[|es| - 1].Write? then es[|es| - 1].p else [])
  }

  predicate IsSuffix(s: Bytes, t: Bytes) {
    |s| <= |t| && t[|t| - |s|..] == s
  }

  predicate NeverTruncated(es: seq<Event>) {
    forall i :: 0 <= i < |es| ==> es[i].Write?
  }

  predicate SizeIsRead(es: seq<Event>) {
    forall i :: 0 <= i < |es| && es[i].Write? ==> es[i].luck.stat
  }

  lemma SuffixGrows(s: Bytes, t: Bytes, p: Bytes)
    requires IsSuffix(s, t)
    ensures IsSuffix(s + p, t + p)
  {
    assert (t + p)[|t| - |s|..] == t[|t| - |s|..] + p;
  }

  lemma LaterPart(a: Bytes, b: Bytes, t: Bytes)
    requires IsSuffix(a + b, t)
    ensures IsSuffix(b, t)
  {
    assert t[|t| - |b|..] == t[|t| - |a + b|..][|a|..];
  }

  /** The two files are the end of all, and all of it or more than max bytes. */
  ghost predicate HoldsTheEnd(l: Log, all: Bytes, max: int, exact: bool) {
    && Counted(l) && l.attached && IsSuffix(l.All(), all)
    && (exact ==> l.All() == all || |l.older.GetOr([])| > max)
  }

  /** From any moment after which nothing is truncated, the two files together are the end
      of what they held then and everything written since; and at least its last max bytes,
      rotating dropping only what is older, if the count was exact at that moment or the
      size can be read. */
  lemma {:induction false} FilesHoldTheEnd(l: Log, es: seq<Event>, max: int)
    requires Counted(l) && l.attached && Rotates(es) && NeverTruncated(es) && max >= 0
    ensures HoldsTheEnd(Run(l, es, max), Stream(l.All(), es), max, l.size == |l.Current()| || SizeIsRead(es))
    ensures l.size == |l.Current()| ==> Run(l, es, max).size == |Run(l, es, max).Current()|
  {
    if es != [] {
      var (front, e) := (es[..|es| - 1], es[|es| - 1]);
      FilesHoldTheEnd(l, front, max);
      var before := Run(l, front, max);
      OneWrite(before, e.p, max, e.luck, Stream(l.All(), front), l.size == |l.Current()| || SizeIsRead(es));
    }
  }

  lemma OneWrite(before: Log, p: Bytes, max: int, luck: Luck, all: Bytes, exact: bool)
    requires HoldsTheEnd(before, all, max, exact)
    requires luck.rename && luck.open && max >= 0
    requires exact ==> before.size == |before.Current()| || luck.stat
    ensures HoldsTheEnd(Written(before, p, max, luck), all + p, max, exact)
    ensures before.size == |before.Current()| ==> Written(before, p, max, luck).size == |Written(before, p, max, luck).Current()|
  {
    var (o, c) := (before.older.GetOr([]), before.Current());
    WriteCases(before, p, max, luck);
    SuffixGrows(o + c, all, p);
    assert o + c + p == o + (c + p);
    LaterPart(o, c + p, all + p);
    assert Log(Some([]), Some(c + p), true, 0).All() == c + p;
  }

  /** A write that does not rotate, and one that does. */
  lemma WriteCases(before: Log, p: Bytes, max: int, luck: Luck)
    requires Counted(before) && before.attached && luck.rename && luck.open && max >= 0
    ensures var (now, file) := (Written(before, p, max, luck), before.Current() + p);
            || (now == Log(Some(file), before.older, true, now.size) && |file| <= now.size <= max
                && (before.size == |before.Current()| ==> now.size == |file|))
            || (now == Log(Some([]), Some(file), true, 0)
                && (luck.stat || before.size == |before.Current()| ==> |file| > max))
  {
  }

  /** A rename that fails loses nothing: the file goes on growing. */
  lemma FailedRenameKeepsAll(l: Log, p: Bytes, max: int, luck: Luck)
    requires l.Valid() && l.attached && !luck.rename
    ensures Written(l, p, max, luck).attached && Written(l, p, max, luck).All() == l.All() + p
  {
    assert l.older.GetOr([]) + l.Current() + p == l.older.GetOr([]) + (l.Current() + p);
  }

  /** What was written since path.1 was last truncated. */
  function WrittenSinceCut(es: seq<Event>): Bytes {
    if es == [] then []
    else
      var (before, e) := (WrittenSinceCut(es[..|es| - 1]), es[|es| - 1]);
      if e.Write? then before + e.p else if e.older then [] else before
  }

  /** If the file was renamed but no new one could be opened, the log is never rotated
      again, whatever the system calls do: path.1 takes every later write and is cut by
      truncation alone. */
  lemma {:induction false} FailedOpenNeverRotates(l: Log, es: seq<Event>, max: int)
    requires l.Valid() && !l.attached
    ensures Run(l, es, max).Valid() && !Run(l, es, max).attached
    ensures IsSuffix(WrittenSinceCut(es), Run(l, es, max).older.value)
    ensures (forall i :: 0 <= i < |es| && es[i].Truncate? ==> !es[i].older)
            ==> Run(l, es, max).older == Some(Stream(l.older.value, es))
  {
    if es != [] {
      var (front, e) := (es[..|es| - 1], es[|es| - 1]);
      FailedOpenNeverRotates(l, front, max);
      var before := Stream(l.older.value, front);
      assert before + [] == before;
      if e.Write? {
        SuffixGrows(WrittenSinceCut(front), Run(l, front, max).older.value, e.p);
      }
    }
  }
}
