/**
 Comparing what a node believed about an edge with how the edge behaved
 (analysis/graph/correctly_evaluted.py and squash_generic_seq of analysis/graph/util.py).
 */
module Timeline {
  import opened Common

  type Time = int

  /** The times at which a status changed, and what it became. */
  type History<T> = seq<(Time, T)>

  ghost predicate Sorted<T>(h: History<T>) {
    forall i, j :: 0 <= i < j < |h| ==> h[i].0 <= h[j].0
  }

  /** The status at an instant: that of the last change not after it. */
  function StatusAt<T>(h: History<T>, t: Time): Option<T> {
    if |h| == 0 then None
    else if h[|h| - 1].0 <= t then Some(h[|h| - 1].1)
    else StatusAt(h[..|h| - 1], t)
  }

  /** With the change k the last one not after t, the status is what k set. */
  lemma {:induction false} StatusIs<T>(h: History<T>, t: Time, k: nat)
    requires k < |h| && h[k].0 <= t && forall j :: k < j < |h| ==> h[j].0 > t
    ensures StatusAt(h, t) == Some(h[k].1)
  {
    if k < |h| - 1 {
      StatusIs(h[..|h| - 1], t, k);
    }
  }

  lemma {:induction false} StatusUnknown<T>(h: History<T>, t: Time)
    requires forall j :: 0 <= j < |h| ==> h[j].0 > t
    ensures StatusAt(h, t) == None
  {
    if |h| > 0 {
      StatusUnknown(h[..|h| - 1], t);
    }
  }

  /** find_status_at_time: the search over adjacent pairs finds the status at t, also with repeated times. */
  method FindStatusAtTime<T>(status: History<T>, t: Time) returns (r: Option<T>)
    requires |status| > 0 && Sorted(status)
    ensures r == StatusAt(status, t)
  {
    for i := 0 to |status| - 1
      invariant i > 0 ==> t < status[0].0 || t >= status[i].0
    {
      if t >= status[i].0 && t < status[i + 1].0 {
        StatusIs(status, t, i);
        return Some(status[i].1);
      }
    }
    if t >= status[|status| - 1].0 {
      return Some(status[|status| - 1].1);
    }
    StatusUnknown(status, t);
    return None;
  }

  // ---------------------------------------------------------------------------
  // belief_correct.
  // ---------------------------------------------------------------------------

  datatype Class = TP | TN | FN | FP

  function Classify(actual: Option<bool>, belief: Option<bool>): Option<Class> {
    if actual.None? || belief.None? then None
    else if actual.value && belief.value then Some(TP)
    else if !actual.value && !belief.value then Some(TN)
    else if actual.value && !belief.value then Some(FN)
    else Some(FP)
  }

  /** Whether the edge behaved well in a class, and whether it was believed to. */
  function WellBehaved(c: Class): bool { c.TP? || c.FN? }

  function Believed(c: Class): bool { c.TP? || c.FP? }

  /** A class stands for exactly one pair of statuses; without both there is none. */
  lemma ClassMeans(actual: Option<bool>, belief: Option<bool>)
    ensures Classify(actual, belief).Some? <==> actual.Some? && belief.Some?
    ensures Classify(actual, belief).Some? ==>
              && WellBehaved(Classify(actual, belief).value) == actual.value
              && Believed(Classify(actual, belief).value) == belief.value
    ensures forall c: Class :: Classify(Some(WellBehaved(c)), Some(Believed(c))) == Some(c)
  {
    forall c: Class
      ensures Classify(Some(WellBehaved(c)), Some(Believed(c))) == Some(c)
    {
      match c
      case TP =>
      case TN =>
      case FN =>
      case FP =>
    }
  }

  function Times<T>(h: History<T>): (r: seq<Time>)
    ensures |r| == |h| && forall i :: 0 <= i < |r| ==> r[i] == h[i].0
  {
    seq(|h|, i requires 0 <= i < |h| => h[i].0)
  }

  ghost predicate Ascending(s: seq<Time>) {
    forall i, j :: 0 <= i < j < |s| ==> s[i] <= s[j]
  }

  function Insert(t: Time, s: seq<Time>): seq<Time> {
    if |s| == 0 then [t]
    else if t <= s[0] then [t] + s
    else [s[0]] + Insert(t, s[1..])
  }

  /** sorted(). */
  function Sort(s: seq<Time>): seq<Time> {
    if |s| == 0 then [] else Insert(s[0], Sort(s[1..]))
  }

  lemma {:induction false} InsertPermutes(t: Time, s: seq<Time>)
    ensures multiset(Insert(t, s)) == multiset(s) + multiset{t}
  {
    if |s| > 0 && t > s[0] {
      InsertPermutes(t, s[1..]);
      assert s == [s[0]] + s[1..];
    }
  }

  lemma {:induction false} InsertAscends(t: Time, s: seq<Time>)
    requires Ascending(s)
    ensures Ascending(Insert(t, s))
  {
    if |s| > 0 && t > s[0] {
      var r := Insert(t, s[1..]);
      InsertAscends(t, s[1..]);
      InsertBound(t, s[1..], s[0]);
      assert forall i :: 0 < i < |r| + 1 ==> ([s[0]] + r)[i] == r[i - 1];
    }
  }

  lemma {:induction false} InsertBound(t: Time, s: seq<Time>, low: Time)
    requires low <= t && forall i :: 0 <= i < |s| ==> low <= s[i]
    ensures forall i :: 0 <= i < |Insert(t, s)| ==> low <= Insert(t, s)[i]
  {
    if |s| > 0 && t > s[0] {
      InsertBound(t, s[1..], low);
    }
  }

  lemma {:induction false} SortSorts(s: seq<Time>)
    ensures Ascending(Sort(s)) && multiset(Sort(s)) == multiset(s)
  {
    if |s| > 0 {
      SortSorts(s[1..]);
      InsertAscends(s[0], Sort(s[1..]));
      InsertPermutes(s[0], Sort(s[1..]));
      assert s == [s[0]] + s[1..];
    }
  }

  /** All the times at which belief or actual status changed. */
  function Changes(belief: History<bool>, actual: History<bool>): seq<Time> {
    Sort(Times(belief) + Times(actual))
  }

  function Classified(changes: seq<Time>, belief: History<bool>, actual: History<bool>): (r: History<Option<Class>>)
    ensures |r| == |changes|
    ensures forall i :: 0 <= i < |r| ==>
              r[i] == (changes[i], Classify(StatusAt(actual, changes[i]), StatusAt(belief, changes[i])))
  {
    seq(|changes|, i requires 0 <= i < |changes| =>
      (changes[i], Classify(StatusAt(actual, changes[i]), StatusAt(belief, changes[i]))))
  }

  /** belief_correct: one entry for every change of either history and no others, in order. */
  method BeliefCorrect(belief: History<bool>, actual: History<bool>) returns (result: History<Option<Class>>)
    requires |belief| > 0 && |actual| > 0 && Sorted(belief) && Sorted(actual)
    ensures result == Classified(Changes(belief, actual), belief, actual)
    ensures Sorted(result) && multiset(Times(result)) == multiset(Times(belief)) + multiset(Times(actual))
  {
    var changes := Changes(belief, actual);
    result := [];
    for i := 0 to |changes|
      invariant result == Classified(changes, belief, actual)[..i]
    {
      var t := changes[i];
      var a := FindStatusAtTime(actual, t);
      var b := FindStatusAtTime(belief, t);
      result := result + [(t, Classify(a, b))];
    }
    ChangesAreAll(belief, actual);
    assert Times(result) == changes;
  }

  /** A history without changes in (c, t] has the same status at both ends. */
  lemma {:induction false} StatusUnchanged<T>(h: History<T>, c: Time, t: Time)
    requires c <= t && forall k :: 0 <= k < |h| ==> h[k].0 <= c || h[k].0 > t
    ensures StatusAt(h, c) == StatusAt(h, t)
  {
    if |h| > 0 {
      StatusUnchanged(h[..|h| - 1], c, t);
    }
  }

  lemma {:induction false} LastNotAfter(s: seq<Time>, t: Time) returns (k: nat)
    requires |s| > 0 && Ascending(s) && s[0] <= t
    ensures k < |s| && s[k] <= t && forall j :: k < j < |s| ==> s[j] > t
  {
    k := |s| - 1;
    if s[k] > t {
      var p := s[..k];
      k := LastNotAfter(p, t);
      forall j | k < j < |s|
        ensures s[j] > t
      {
        assert j < |p| ==> p[j] == s[j];
      }
    }
  }

  /** The changes are the changes of the two histories and no others, each as often as it occurs, in order. */
  lemma ChangesAreAll(belief: History<bool>, actual: History<bool>)
    ensures Ascending(Changes(belief, actual))
    ensures multiset(Changes(belief, actual)) == multiset(Times(belief)) + multiset(Times(actual))
    ensures |Changes(belief, actual)| == |belief| + |actual|
  {
    SortSorts(Times(belief) + Times(actual));
    assert |multiset(Changes(belief, actual))| == |belief| + |actual|;
  }

  function Earlier(a: Time, b: Time): Time { if a <= b then a else b }

  function Later(a: Time, b: Time): Time { if a >= b then a else b }

  /** The first change of either history, and the last. */
  function First(belief: History<bool>, actual: History<bool>): Time
    requires |belief| > 0 && |actual| > 0
  {
    Earlier(belief[0].0, actual[0].0)
  }

  function Last(belief: History<bool>, actual: History<bool>): Time
    requires |belief| > 0 && |actual| > 0
  {
    Later(belief[|belief| - 1].0, actual[|actual| - 1].0)
  }

  lemma ChangesSpan(belief: History<bool>, actual: History<bool>)
    requires |belief| > 0 && |actual| > 0 && Sorted(belief) && Sorted(actual)
    ensures var changes := Changes(belief, actual);
            |changes| > 0 && changes[0] == First(belief, actual) && changes[|changes| - 1] == Last(belief, actual)
  {
    ChangesAreAll(belief, actual);
    ChangesCover(belief, actual);
    var changes := Changes(belief, actual);
    forall k | 0 <= k < |changes|
      ensures First(belief, actual) <= changes[k] <= Last(belief, actual)
    {
      assert changes[k] in multiset(changes);
      assert changes[k] in Times(belief) || changes[k] in Times(actual);
    }
    assert belief[0].0 in changes && actual[0].0 in changes;
    assert belief[|belief| - 1].0 in changes && actual[|actual| - 1].0 in changes;
  }

  /** The changes contain every change of either history, in order. */
  lemma ChangesCover(belief: History<bool>, actual: History<bool>)
    ensures Ascending(Changes(belief, actual))
    ensures forall k :: 0 <= k < |belief| ==> belief[k].0 in Changes(belief, actual)
    ensures forall k :: 0 <= k < |actual| ==> actual[k].0 in Changes(belief, actual)
  {
    var all := Times(belief) + Times(actual);
    SortSorts(all);
    forall k | 0 <= k < |belief|
      ensures belief[k].0 in Changes(belief, actual)
    {
      SameMembers(all, Changes(belief, actual), k);
    }
    forall k | 0 <= k < |actual|
      ensures actual[k].0 in Changes(belief, actual)
    {
      SameMembers(all, Changes(belief, actual), |belief| + k);
    }
  }

  lemma SameMembers(a: seq<Time>, b: seq<Time>, k: nat)
    requires multiset(a) == multiset(b) && k < |a|
    ensures a[k] in b
  {
    assert a[k] in multiset(a);
  }

  /** Between one change and the next nothing covered by the changes moves. */
  lemma QuietAfter<T>(h: History<T>, changes: seq<Time>, k: nat, t: Time)
    requires Ascending(changes) && k < |changes| && changes[k] <= t
    requires forall j :: k < j < |changes| ==> changes[j] > t
    requires forall i :: 0 <= i < |h| ==> h[i].0 in changes
    ensures StatusAt(h, changes[k]) == StatusAt(h, t)
  {
    forall i | 0 <= i < |h|
      ensures h[i].0 <= changes[k] || h[i].0 > t
    {
      var j :| 0 <= j < |changes| && changes[j] == h[i].0;
      if j < k {
        assert changes[j] <= changes[k];
      }
    }
    StatusUnchanged(h, changes[k], t);
  }

  /**
   From the first change on, looking up the classification history at any instant classifies what the
   two histories say at that instant.
   */
  lemma ClassifiedAtEveryInstant(belief: History<bool>, actual: History<bool>, t: Time)
    requires |belief| > 0 && |Changes(belief, actual)| > 0 && Changes(belief, actual)[0] <= t
    ensures StatusAt(Classified(Changes(belief, actual), belief, actual), t) ==
            Some(Classify(StatusAt(actual, t), StatusAt(belief, t)))
  {
    var changes := Changes(belief, actual);
    ChangesCover(belief, actual);
    var k := LastNotAfter(changes, t);
    QuietAfter(belief, changes, k, t);
    QuietAfter(actual, changes, k, t);
    StatusIs(Classified(changes, belief, actual), t, k);
  }

  /** Before the first change nothing is known of either history, and the lookup finds nothing. */
  lemma UnknownBefore(belief: History<bool>, actual: History<bool>, t: Time)
    requires forall i :: 0 <= i < |Changes(belief, actual)| ==> t < Changes(belief, actual)[i]
    ensures StatusAt(Classified(Changes(belief, actual), belief, actual), t) == None
    ensures StatusAt(belief, t) == None && StatusAt(actual, t) == None
  {
    ChangesCover(belief, actual);
    StatusUnknown(Classified(Changes(belief, actual), belief, actual), t);
    StatusUnknown(belief, t);
    StatusUnknown(actual, t);
  }

  // ---------------------------------------------------------------------------
  // squash_generic_seq.
  // ---------------------------------------------------------------------------

  /** The intervals closed for kind k when the first n entries have been read. */
  function Closed<K(==)>(xy: History<K>, n: nat, k: K): seq<(Time, Time)>
    requires n <= |xy|
  {
    if n < 2 then []
    else
      Closed(xy, n - 1, k) +
      (if xy[n - 2].1 == k then [(xy[n - 2].0, xy[n - 1].0 - xy[n - 2].0)] else [])
  }

  /** All the intervals of kind k; the last entry lasts for no time. */
  function Intervals<K(==)>(xy: History<K>, k: K): seq<(Time, Time)> {
    var n := |xy|;
    Closed(xy, n, k) + (if n > 0 && xy[n - 1].1 == k then [(xy[n - 1].0, 0)] else [])
  }

  /** Only the last kind read is open, since the time it was read. */
  ghost predicate OnlyLastOpen<K>(xy: History<K>, n: nat, start: map<K, Option<Time>>) {
    n <= |xy| && forall k :: k in start ==>
      start[k] == if n > 0 && xy[n - 1].1 == k then Some(xy[n - 1].0) else None
  }

  /** The kinds whose interval has started and not ended. */
  function OpenKinds<K(==)>(start: map<K, Option<Time>>): set<K> {
    set k | k in start && start[k].Some?
  }

  lemma SingletonIs<K>(s: set<K>, k: K)
    requires |s| == 1 && k in s
    ensures s == {k}
  {
    assert |s - {k}| == 0;
  }

  /** Closing the open kind, if there is one; two open kinds are the original's "Logic error". */
  method Close<K(==)>(start: map<K, Option<Time>>, result: map<K, seq<(Time, Time)>>, time: Time)
    returns (start': map<K, Option<Time>>, result': map<K, seq<(Time, Time)>>, error: bool)
    requires start.Keys == result.Keys
    ensures error <==> |OpenKinds(start)| > 1
    ensures start'.Keys == result'.Keys == start.Keys
    ensures !error ==> (forall k :: k in start' ==> start'[k] == None) && Extends(start, time, result, result')
  {
    start', result', error := start, result, false;
    var open := OpenKinds(start);
    if |open| == 1 {
      var k :| k in open;
      SingletonIs(open, k);
      assert forall x :: x in start && x != k ==> x !in open;
      result' := result[k := result[k] + [(start[k].value, time - start[k].value)]];
      start' := start[k := None];
    } else if |open| > 1 {
      error := true;
    } else {
      assert forall x :: x in start ==> x !in open;
    }
  }

  lemma AtMostOneOpen<K>(xy: History<K>, n: nat, start: map<K, Option<Time>>)
    requires OnlyLastOpen(xy, n, start)
    ensures |OpenKinds(start)| <= 1
  {
    if n > 0 {
      var k := xy[n - 1].1;
      assert OpenKinds(start) <= {k};
      SubsetOfOne(OpenKinds(start), k);
    } else {
      assert OpenKinds(start) == {};
    }
  }

  lemma SubsetOfOne<K>(s: set<K>, k: K)
    requires s <= {k}
    ensures |s| <= 1
  {
    if k in s {
      assert s == {k};
    } else {
      assert s == {};
    }
  }

  /** What is known after n entries. */
  ghost predicate Midway<K>(
    xy: History<K>, kinds: set<K>, n: nat, start: map<K, Option<Time>>, result: map<K, seq<(Time, Time)>>)
  {
    && start.Keys == result.Keys == kinds && OnlyLastOpen(xy, n, start) && ClosedUpTo(xy, n, result)
  }

  ghost predicate ClosedUpTo<K>(xy: History<K>, n: nat, result: map<K, seq<(Time, Time)>>) {
    n <= |xy| && forall k :: k in result ==> result[k] == Closed(xy, n, k)
  }

  /** What closing does to the interval list of each kind. */
  ghost predicate Extends<K>(
    start: map<K, Option<Time>>, time: Time, result: map<K, seq<(Time, Time)>>, result': map<K, seq<(Time, Time)>>)
  {
    && start.Keys == result.Keys == result'.Keys
    && forall k :: k in result ==> result'[k] == result[k] + Interval(start[k], time)
  }

  /** The interval that ends at `time`, if one is open. */
  function Interval(start: Option<Time>, time: Time): seq<(Time, Time)> {
    if start.Some? then [(start.value, time - start.value)] else []
  }

  lemma ClosesNext<K>(
    xy: History<K>, n: nat, start: map<K, Option<Time>>, result: map<K, seq<(Time, Time)>>,
    result': map<K, seq<(Time, Time)>>)
    requires n < |xy| && OnlyLastOpen(xy, n, start) && ClosedUpTo(xy, n, result)
    requires Extends(start, xy[n].0, result, result')
    ensures ClosedUpTo(xy, n + 1, result')
  {
    forall k | k in result'
      ensures result'[k] == Closed(xy, n + 1, k)
    {
      assert result[k] == Closed(xy, n, k);
      ClosedNext(xy, n, k, start[k]);
    }
  }

  lemma ClosedNext<K>(xy: History<K>, n: nat, k: K, start: Option<Time>)
    requires n < |xy| && start == if n > 0 && xy[n - 1].1 == k then Some(xy[n - 1].0) else None
    ensures Closed(xy, n + 1, k) == Closed(xy, n, k) + Interval(start, xy[n].0)
  {
  }

  lemma ClosesLast<K>(
    xy: History<K>, start: map<K, Option<Time>>, result: map<K, seq<(Time, Time)>>, result': map<K, seq<(Time, Time)>>)
    requires |xy| > 0 && OnlyLastOpen(xy, |xy|, start) && ClosedUpTo(xy, |xy|, result)
    requires Extends(start, xy[|xy| - 1].0, result, result')
    ensures forall k :: k in result' ==> result'[k] == Intervals(xy, k)
  {
    forall k | k in result'
      ensures result'[k] == Intervals(xy, k)
    {
      assert result[k] == Closed(xy, |xy|, k);
    }
  }

  /** Reading one entry closes the interval before it and opens the entry's own. */
  method Advance<K(==)>(
    xy: History<K>, ghost kinds: set<K>, n: nat, start: map<K, Option<Time>>, result: map<K, seq<(Time, Time)>>)
    returns (start': map<K, Option<Time>>, result': map<K, seq<(Time, Time)>>, known: bool)
    requires n < |xy| && Midway(xy, kinds, n, start, result)
    ensures known <==> xy[n].1 in kinds
    ensures known ==> Midway(xy, kinds, n + 1, start', result')
  {
    var (time, v) := xy[n];
    AtMostOneOpen(xy, n, start);
    var error;
    start', result', error := Close(start, result, time);
    if error {
      assert false;
    }
    ClosesNext(xy, n, start, result, result');
    known := v in start';
    if known && start'[v].None? {
      start' := start'[v := Some(time)];
    }
  }

  datatype Squashed<!K> = KeyError | Squashed(intervals: map<K, seq<(Time, Time)>>)

  /**
   squash_generic_seq: it fails only for a value that is not one of the kinds, never with two kinds
   open at once, and otherwise yields each kind's intervals.
   */
  method Squash<K(==)>(xy: History<K>, kinds: set<K>) returns (r: Squashed<K>)
    ensures r.KeyError? <==> exists i :: 0 <= i < |xy| && xy[i].1 !in kinds
    ensures r.Squashed? ==>
              r.intervals.Keys == kinds && forall k :: k in kinds ==> r.intervals[k] == Intervals(xy, k)
  {
    var start: map<K, Option<Time>> := map k | k in kinds :: None;
    var result: map<K, seq<(Time, Time)>> := map k | k in kinds :: [];
    for n := 0 to |xy|
      invariant Midway(xy, kinds, n, start, result)
      invariant forall i :: 0 <= i < n ==> xy[i].1 in kinds
    {
      var known;
      start, result, known := Advance(xy, kinds, n, start, result);
      if !known {
        return KeyError;
      }
    }
    if |xy| > 0 {
      AtMostOneOpen(xy, |xy|, start);
      ghost var final, collected := start, result;
      var error;
      start, result, error := Close(start, result, xy[|xy| - 1].0);
      if error {
        assert false;
      }
      ClosesLast(xy, final, collected, result);
    }
    return Squashed(result);
  }

  // ---------------------------------------------------------------------------
  // Durations.
  // ---------------------------------------------------------------------------

  function Duration(intervals: seq<(Time, Time)>): int {
    if |intervals| == 0 then 0 else Duration(intervals[..|intervals| - 1]) + intervals[|intervals| - 1].1
  }

  /** The time spent in any of the kinds. */
  function TotalClosed<K(==)>(xy: History<K>, n: nat, kinds: seq<K>): int
    requires n <= |xy|
  {
    if |kinds| == 0 then 0
    else TotalClosed(xy, n, kinds[1..]) + Duration(Closed(xy, n, kinds[0]))
  }

  function Total<K(==)>(xy: History<K>, kinds: seq<K>): int {
    if |kinds| == 0 then 0 else Total(xy, kinds[1..]) + Duration(Intervals(xy, kinds[0]))
  }

  lemma DurationSnoc(s: seq<(Time, Time)>, x: (Time, Time))
    ensures Duration(s + [x]) == Duration(s) + x.1
  {
    assert (s + [x])[..|s|] == s;
  }

  lemma ClosedStep<K>(xy: History<K>, n: nat, k: K)
    requires 0 < n < |xy|
    ensures Duration(Closed(xy, n + 1, k)) ==
            Duration(Closed(xy, n, k)) + (if xy[n - 1].1 == k then xy[n].0 - xy[n - 1].0 else 0)
  {
    var c := Closed(xy, n, k);
    DurationSnoc(c, (xy[n - 1].0, xy[n].0 - xy[n - 1].0));
    assert c + [] == c;
  }

  lemma {:induction false} TotalStep<K>(xy: History<K>, n: nat, kinds: seq<K>)
    requires 0 < n < |xy| && Distinct(kinds)
    ensures TotalClosed(xy, n + 1, kinds) ==
            TotalClosed(xy, n, kinds) + (if xy[n - 1].1 in kinds then xy[n].0 - xy[n - 1].0 else 0)
    decreases |kinds|
  {
    if |kinds| > 0 {
      TotalStep(xy, n, kinds[1..]);
      ClosedStep(xy, n, kinds[0]);
      var v := xy[n - 1].1;
      assert kinds == [kinds[0]] + kinds[1..];
      assert kinds[0] !in kinds[1..];
    }
  }

  lemma {:induction false} ClosedTotal<K>(xy: History<K>, n: nat, kinds: seq<K>)
    requires 0 < n <= |xy| && Distinct(kinds) && forall i :: 0 <= i < |xy| ==> xy[i].1 in kinds
    ensures TotalClosed(xy, n, kinds) == xy[n - 1].0 - xy[0].0
    decreases n
  {
    if n == 1 {
      NothingClosed(xy, kinds);
    } else {
      ClosedTotal(xy, n - 1, kinds);
      TotalStep(xy, n - 1, kinds);
    }
  }

  lemma {:induction false} NothingClosed<K>(xy: History<K>, kinds: seq<K>)
    requires |xy| > 0
    ensures TotalClosed(xy, 1, kinds) == 0
    decreases |kinds|
  {
    if |kinds| > 0 {
      NothingClosed(xy, kinds[1..]);
    }
  }

  lemma {:induction false} LastLastsNoTime<K>(xy: History<K>, kinds: seq<K>)
    ensures Total(xy, kinds) == TotalClosed(xy, |xy|, kinds)
    decreases |kinds|
  {
    if |kinds| > 0 {
      LastLastsNoTime(xy, kinds[1..]);
      if |xy| > 0 {
        DurationSnoc(Closed(xy, |xy|, kinds[0]), (xy[|xy| - 1].0, 0));
      }
      assert Closed(xy, |xy|, kinds[0]) + [] == Closed(xy, |xy|, kinds[0]);
    }
  }

  /** Over all kinds the durations add up to the time from the first entry to the last. */
  lemma DurationsSum<K>(xy: History<K>, kinds: seq<K>)
    requires |xy| > 0 && Distinct(kinds) && forall i :: 0 <= i < |xy| ==> xy[i].1 in kinds
    ensures Total(xy, kinds) == xy[|xy| - 1].0 - xy[0].0
  {
    LastLastsNoTime(xy, kinds);
    ClosedTotal(xy, |xy|, kinds);
  }

  // ---------------------------------------------------------------------------
  // What the intervals cover.
  // ---------------------------------------------------------------------------

  /** The instant lies in one of the intervals. */
  ghost predicate Covered(intervals: seq<(Time, Time)>, t: Time) {
    exists i :: 0 <= i < |intervals| && intervals[i].0 <= t < intervals[i].0 + intervals[i].1
  }

  /** Among the first n entries, one of kind k begins not after t, and the next one after t. */
  ghost predicate Between<K>(xy: History<K>, n: nat, k: K, t: Time)
    requires n <= |xy|
  {
    exists j :: 0 <= j < n - 1 && xy[j].0 <= t < xy[j + 1].0 && xy[j].1 == k
  }

  lemma CoveredSnoc(s: seq<(Time, Time)>, x: (Time, Time), t: Time)
    ensures Covered(s + [x], t) <==> Covered(s, t) || x.0 <= t < x.0 + x.1
  {
    var r := s + [x];
    assert r[|s|] == x && forall i :: 0 <= i < |s| ==> r[i] == s[i];
  }

  lemma {:induction false} ClosedCovers<K>(xy: History<K>, n: nat, k: K, t: Time)
    requires n <= |xy|
    ensures Covered(Closed(xy, n, k), t) <==> Between(xy, n, k, t)
  {
    if n >= 2 {
      ClosedCovers(xy, n - 1, k, t);
      var before := Closed(xy, n - 1, k);
      CoveredSnoc(before, (xy[n - 2].0, xy[n - 1].0 - xy[n - 2].0), t);
      assert before + [] == before;
      if xy[n - 2].0 <= t < xy[n - 1].0 && xy[n - 2].1 == k {
        assert Between(xy, n, k, t);
      }
    }
  }

  lemma IntervalsCover<K>(xy: History<K>, k: K, t: Time)
    ensures Covered(Intervals(xy, k), t) <==> Between(xy, |xy|, k, t)
  {
    var n := |xy|;
    var closed := Closed(xy, n, k);
    ClosedCovers(xy, n, k, t);
    if n > 0 {
      CoveredSnoc(closed, (xy[n - 1].0, 0), t);
    }
    assert closed + [] == closed;
  }

  lemma BetweenIsStatus<K>(xy: History<K>, k: K, t: Time)
    requires |xy| > 0 && Sorted(xy)
    ensures Between(xy, |xy|, k, t) <==> t < xy[|xy| - 1].0 && StatusAt(xy, t) == Some(k)
  {
    var n := |xy|;
    if j :| 0 <= j < n - 1 && xy[j].0 <= t < xy[j + 1].0 && xy[j].1 == k {
      StatusIs(xy, t, j);
    }
    if t < xy[0].0 {
      StatusUnknown(xy, t);
    } else if t < xy[n - 1].0 {
      var j := LastNotAfter(Times(xy), t);
      StatusIs(xy, t, j);
      assert Times(xy)[j] == xy[j].0 && Times(xy)[j + 1] == xy[j + 1].0;
      assert xy[j].1 == k ==> Between(xy, n, k, t);
    }
  }

  /** Before the last entry, an instant lies in an interval of kind k if and only if k is the status at it. */
  lemma IntervalsAreStatus<K>(xy: History<K>, k: K, t: Time)
    requires |xy| > 0 && Sorted(xy)
    ensures Covered(Intervals(xy, k), t) <==> t < xy[|xy| - 1].0 && StatusAt(xy, t) == Some(k)
  {
    IntervalsCover(xy, k, t);
    BetweenIsStatus(xy, k, t);
  }

  // ---------------------------------------------------------------------------
  // The two together.
  // ---------------------------------------------------------------------------

  /** The kinds the graph asks for, with None for the unknown. */
  const KINDS: seq<Option<Class>> := [Some(TP), Some(TN), Some(FP), Some(FN), None]

  lemma KindsAreAll(c: Option<Class>)
    ensures c in KINDS && Distinct(KINDS)
  {
    match c
    case None => assert KINDS[4] == c;
    case Some(TP) => assert KINDS[0] == c;
    case Some(TN) => assert KINDS[1] == c;
    case Some(FP) => assert KINDS[2] == c;
    case Some(FN) => assert KINDS[3] == c;
  }

  lemma ClassifiedSorted(belief: History<bool>, actual: History<bool>)
    ensures Sorted(Classified(Changes(belief, actual), belief, actual))
  {
    ChangesCover(belief, actual);
  }

  /** An instant between first and last change lies in the intervals of its class and of no other. */
  lemma CoveredByClass(belief: History<bool>, actual: History<bool>, c: Option<Class>, t: Time)
    requires |belief| > 0 && |actual| > 0 && Sorted(belief) && Sorted(actual)
    ensures Covered(Intervals(Classified(Changes(belief, actual), belief, actual), c), t) <==>
            First(belief, actual) <= t < Last(belief, actual) && Classify(StatusAt(actual, t), StatusAt(belief, t)) == c
  {
    ChangesSpan(belief, actual);
    ClassifiedSorted(belief, actual);
    var xy := Classified(Changes(belief, actual), belief, actual);
    IntervalsAreStatus(xy, c, t);
    if First(belief, actual) <= t {
      ClassifiedAtEveryInstant(belief, actual, t);
    } else {
      StatusUnknown(xy, t);
    }
  }

  /** The intervals of each class cover exactly the instants, from first to last change, of that class. */
  ghost predicate CoversItsClass(
    intervals: seq<(Time, Time)>, belief: History<bool>, actual: History<bool>, c: Option<Class>)
    requires |belief| > 0 && |actual| > 0
  {
    forall t :: Covered(intervals, t) <==>
                First(belief, actual) <= t < Last(belief, actual)
                && Classify(StatusAt(actual, t), StatusAt(belief, t)) == c
  }

  lemma IntervalsCoverClass(belief: History<bool>, actual: History<bool>, c: Option<Class>)
    requires |belief| > 0 && |actual| > 0 && Sorted(belief) && Sorted(actual)
    ensures CoversItsClass(Intervals(Classified(Changes(belief, actual), belief, actual), c), belief, actual, c)
  {
    var intervals := Intervals(Classified(Changes(belief, actual), belief, actual), c);
    forall t
      ensures Covered(intervals, t) <==> First(belief, actual) <= t < Last(belief, actual)
                                         && Classify(StatusAt(actual, t), StatusAt(belief, t)) == c
    {
      CoveredByClass(belief, actual, c, t);
    }
  }

  lemma ClassifiedKinds(xy: History<Option<Class>>)
    ensures Distinct(KINDS) && forall i :: 0 <= i < |xy| ==> xy[i].1 in KINDS
  {
    KindsAreAll(None);
    forall i | 0 <= i < |xy|
      ensures xy[i].1 in KINDS
    {
      KindsAreAll(xy[i].1);
    }
  }

  /**
   Squashing a classified history never fails. The durations add up to the time from the first change of
   either history to the last, and the intervals of a class cover exactly the instants of that class.
   */
  method SquashBelief(belief: History<bool>, actual: History<bool>)
    returns (xy: History<Option<Class>>, r: Squashed<Option<Class>>)
    requires |belief| > 0 && |actual| > 0 && Sorted(belief) && Sorted(actual)
    ensures xy == Classified(Changes(belief, actual), belief, actual)
    ensures r.Squashed? && (forall k :: k in KINDS ==> k in r.intervals && r.intervals[k] == Intervals(xy, k))
    ensures Total(xy, KINDS) == Last(belief, actual) - First(belief, actual)
    ensures forall k :: k in KINDS ==> CoversItsClass(r.intervals[k], belief, actual, k)
  {
    xy := BeliefCorrect(belief, actual);
    ChangesSpan(belief, actual);
    ClassifiedKinds(xy);
    r := Squash(xy, set k | k in KINDS);
    DurationsSum(xy, KINDS);
    forall k | k in KINDS
      ensures CoversItsClass(r.intervals[k], belief, actual, k)
    {
      IntervalsCoverClass(belief, actual, k);
    }
  }
}
