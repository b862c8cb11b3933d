/** Splitting a time-ordered list of events into sessions: what a session split is, that there is
    only one, and how it reacts to ties, windows and thresholds. */
module Sessions {
  import opened Base
  import opened Events

  function Flatten<T>(parts: seq<seq<T>>): seq<T> {
    if parts == [] then [] else parts[0] + Flatten(parts[1..])
  }

  lemma {:induction false} FlattenAppend<T>(p: seq<seq<T>>, q: seq<seq<T>>)
    ensures Flatten(p + q) == Flatten(p) + Flatten(q)
  {
    if p == [] {
      assert p + q == q;
    } else {
      assert (p + q)[1..] == p[1..] + q;
      FlattenAppend(p[1..], q);
    }
  }

  lemma FlattenOne<T>(p: seq<T>)
    ensures Flatten([p]) == p
  {
    assert Flatten([p]) == p + Flatten<T>([]);
  }

  function Last<T>(s: seq<T>): T
    requires s != []
  {
    s[|s| - 1]
  }

  /** No gap between neighbours exceeds the threshold. */
  ghost predicate Connected(run: seq<ActivityEvent>, gap: u64) {
    forall i, j | 0 <= i < j < |run| && j == i + 1 :: run[j].timestamp - run[i].timestamp <= gap
  }

  /** The gap from one run to the next exceeds the threshold. */
  predicate Apart(p: seq<ActivityEvent>, q: seq<ActivityEvent>, gap: u64) {
    p != [] && q != [] && q[0].timestamp - Last(p).timestamp > gap
  }

  /** `parts` cuts `s` into non-empty runs, exactly at the gaps above the threshold. */
  ghost predicate IsSplit(parts: seq<seq<ActivityEvent>>, s: seq<ActivityEvent>, gap: u64) {
    && Flatten(parts) == s
    && (forall p | p in parts :: p != [] && Connected(p, gap))
    && (forall i, j | 0 <= i < j < |parts| && j == i + 1 :: Apart(parts[i], parts[j], gap))
  }

  lemma SplitTail(parts: seq<seq<ActivityEvent>>, s: seq<ActivityEvent>, gap: u64)
    requires IsSplit(parts, s, gap) && parts != []
    ensures |parts[0]| <= |s| && s == parts[0] + s[|parts[0]|..]
    ensures IsSplit(parts[1..], s[|parts[0]|..], gap)
    ensures |parts| > 1 ==> |s| > |parts[0]| && s[|parts[0]|] == parts[1][0]
  {
    assert s[|parts[0]|..] == Flatten(parts[1..]);
    forall p | p in parts[1..] ensures p != [] && Connected(p, gap) {
      assert p in parts;
    }
    forall i, j | 0 <= i < j < |parts[1..]| && j == i + 1 ensures Apart(parts[1..][i], parts[1..][j], gap) {
      assert Apart(parts[i + 1], parts[j + 1], gap);
    }
  }

  // ---- growing a split event by event ----

  lemma ConnectedAppend(run: seq<ActivityEvent>, e: ActivityEvent, gap: u64)
    requires run != [] && Connected(run, gap) && e.timestamp - Last(run).timestamp <= gap
    ensures Connected(run + [e], gap)
  {
  }

  lemma ApartKept(p: seq<ActivityEvent>, run: seq<ActivityEvent>, e: ActivityEvent, gap: u64)
    requires Apart(p, run, gap)
    ensures Apart(p, run + [e], gap)
  {
  }

  lemma SplitExtend(parts: seq<seq<ActivityEvent>>, run: seq<ActivityEvent>, s: seq<ActivityEvent>,
                    e: ActivityEvent, gap: u64)
    requires IsSplit(parts + [run], s, gap) && run != [] && e.timestamp - Last(run).timestamp <= gap
    ensures IsSplit(parts + [run + [e]], s + [e], gap)
  {
    FlattenAppend(parts, [run]);
    FlattenAppend(parts, [run + [e]]);
    FlattenOne(run);
    FlattenOne(run + [e]);
    var old', new' := parts + [run], parts + [run + [e]];
    assert old'[|parts|] == run && run in old';
    ConnectedAppend(run, e, gap);
    forall p | p in new' ensures p != [] && Connected(p, gap) {
      assert p in old' || p == run + [e];
    }
    forall i, j | 0 <= i < j < |new'| && j == i + 1 ensures Apart(new'[i], new'[j], gap) {
      assert Apart(old'[i], old'[j], gap);
      if j == |parts| {
        ApartKept(parts[i], run, e, gap);
      }
    }
  }

  lemma SplitOpen(parts: seq<seq<ActivityEvent>>, run: seq<ActivityEvent>, s: seq<ActivityEvent>,
                  e: ActivityEvent, gap: u64)
    requires IsSplit(parts + [run], s, gap) && run != [] && e.timestamp - Last(run).timestamp > gap
    ensures IsSplit(parts + [run] + [[e]], s + [e], gap)
  {
    FlattenAppend(parts + [run], [[e]]);
    FlattenOne([e]);
    var old', new' := parts + [run], parts + [run] + [[e]];
    forall i, j | 0 <= i < j < |new'| && j == i + 1 ensures Apart(new'[i], new'[j], gap) {
      if j < |old'| {
        assert Apart(old'[i], old'[j], gap);
      }
    }
  }

  lemma SplitOfOne(e: ActivityEvent, gap: u64)
    ensures IsSplit([[e]], [e], gap)
  {
    FlattenOne([e]);
  }

  /** The greedy split. */
  function SplitOf(s: seq<ActivityEvent>, gap: u64): (parts: seq<seq<ActivityEvent>>)
    ensures parts == [] <==> s == []
  {
    if s == [] then []
    else if |s| == 1 then [s]
    else
      var n := |s| - 1;
      var parts := SplitOf(s[..n], gap);
      if s[n].timestamp - s[n - 1].timestamp > gap then parts + [[s[n]]]
      else parts[..|parts| - 1] + [Last(parts) + [s[n]]]
  }

  lemma SplitLast(parts: seq<seq<ActivityEvent>>, s: seq<ActivityEvent>, gap: u64)
    requires IsSplit(parts, s, gap) && s != []
    ensures parts != [] && Last(parts) != [] && Last(Last(parts)) == Last(s)
  {
    var n := |parts| - 1;
    assert parts == parts[..n] + [parts[n]];
    FlattenAppend(parts[..n], [parts[n]]);
    FlattenOne(parts[n]);
    assert parts[n] in parts;
  }

  lemma {:induction false} SplitOfIsSplit(s: seq<ActivityEvent>, gap: u64)
    ensures IsSplit(SplitOf(s, gap), s, gap)
  {
    if s == [] {
    } else if |s| == 1 {
      assert s == [s[0]];
      SplitOfOne(s[0], gap);
    } else {
      var n := |s| - 1;
      var parts := SplitOf(s[..n], gap);
      SplitOfIsSplit(s[..n], gap);
      SplitLast(parts, s[..n], gap);
      assert parts == parts[..|parts| - 1] + [Last(parts)];
      assert s == s[..n] + [s[n]];
      if s[n].timestamp - s[n - 1].timestamp > gap {
        SplitOpen(parts[..|parts| - 1], Last(parts), s[..n], s[n], gap);
      } else {
        SplitExtend(parts[..|parts| - 1], Last(parts), s[..n], s[n], gap);
      }
    }
  }

  lemma SplitEmpty(parts: seq<seq<ActivityEvent>>, s: seq<ActivityEvent>, gap: u64)
    requires IsSplit(parts, s, gap)
    ensures parts == [] <==> s == []
  {
    assert parts != [] ==> parts[0] in parts;
  }

  // ---- there is only one split ----

  /** The gap before position `i` exceeds the threshold. */
  predicate CutAt(s: seq<ActivityEvent>, i: int, gap: u64) {
    0 < i < |s| && s[i].timestamp - s[i - 1].timestamp > gap
  }

  /** The first part of a split ends at the first cut. */
  lemma FirstCut(parts: seq<seq<ActivityEvent>>, s: seq<ActivityEvent>, gap: u64)
    requires IsSplit(parts, s, gap) && parts != []
    ensures 0 < |parts[0]| <= |s|
    ensures forall i | 0 < i < |parts[0]| :: !CutAt(s, i, gap)
    ensures |parts[0]| < |s| ==> CutAt(s, |parts[0]|, gap)
  {
    SplitTail(parts, s, gap);
    var n := |parts[0]|;
    assert parts[0] in parts;
    forall i | 0 < i < n ensures !CutAt(s, i, gap) {
      assert s[i] == parts[0][i] && s[i - 1] == parts[0][i - 1];
    }
    if n < |s| {
      SplitEmpty(parts[1..], s[n..], gap);
      assert Apart(parts[0], parts[1], gap);
      assert s[n - 1] == parts[0][n - 1];
    }
  }

  ghost predicate SameTimes(s: seq<ActivityEvent>, t: seq<ActivityEvent>) {
    |s| == |t| && forall i | 0 <= i < |s| :: s[i].timestamp == t[i].timestamp
  }

  /** Splits of two lists with the same timestamps have the same boundaries. */
  lemma {:induction false} SameBoundaries(p: seq<seq<ActivityEvent>>, s: seq<ActivityEvent>,
                                          q: seq<seq<ActivityEvent>>, t: seq<ActivityEvent>, gap: u64)
    requires IsSplit(p, s, gap) && IsSplit(q, t, gap) && SameTimes(s, t)
    ensures |p| == |q|
    ensures forall k | 0 <= k < |p| :: SameTimes(p[k], q[k])
    decreases |p|
  {
    SplitEmpty(p, s, gap);
    SplitEmpty(q, t, gap);
    if p != [] {
      SplitTail(p, s, gap);
      SplitTail(q, t, gap);
      SameFirstPart(p, s, q, t, gap);
      var n := |p[0]|;
      SameTimesTail(s, t, n);
      SameBoundaries(p[1..], s[n..], q[1..], t[n..], gap);
      forall k | 0 < k < |p| ensures SameTimes(p[k], q[k]) {
        assert p[k] == p[1..][k - 1] && q[k] == q[1..][k - 1];
      }
    }
  }

  lemma SameTimesTail(s: seq<ActivityEvent>, t: seq<ActivityEvent>, n: nat)
    requires SameTimes(s, t) && n <= |s|
    ensures SameTimes(s[n..], t[n..])
  {
  }

  lemma SameFirstPart(p: seq<seq<ActivityEvent>>, s: seq<ActivityEvent>,
                      q: seq<seq<ActivityEvent>>, t: seq<ActivityEvent>, gap: u64)
    requires IsSplit(p, s, gap) && IsSplit(q, t, gap) && SameTimes(s, t) && p != [] && q != []
    ensures SameTimes(p[0], q[0])
  {
    SplitTail(p, s, gap);
    SplitTail(q, t, gap);
    FirstCut(p, s, gap);
    FirstCut(q, t, gap);
    assert forall i :: CutAt(s, i, gap) == CutAt(t, i, gap);
    assert p[0] == s[..|p[0]|] && q[0] == t[..|q[0]|];
  }

  /** The split is unique: it is the greedy one. */
  lemma SplitUnique(p: seq<seq<ActivityEvent>>, s: seq<ActivityEvent>, gap: u64)
    requires IsSplit(p, s, gap)
    ensures p == SplitOf(s, gap)
  {
    SplitOfIsSplit(s, gap);
    var q := SplitOf(s, gap);
    SameBoundaries(p, s, q, s, gap);
    SameCutsOfOneList(p, q);
  }

  lemma {:induction false} SameCutsOfOneList(p: seq<seq<ActivityEvent>>, q: seq<seq<ActivityEvent>>)
    requires Flatten(p) == Flatten(q) && |p| == |q| && forall k | 0 <= k < |p| :: |p[k]| == |q[k]|
    ensures p == q
  {
    if p != [] {
      var s := Flatten(p);
      assert p[0] == s[..|p[0]|] && q[0] == s[..|q[0]|];
      assert Flatten(p[1..]) == s[|p[0]|..] && Flatten(q[1..]) == s[|q[0]|..];
      SameCutsOfOneList(p[1..], q[1..]);
      assert p == [p[0]] + p[1..] && q == [q[0]] + q[1..];
    }
  }

  // ---- positions and sessions ----

  /** The session that position `i` of the flattened list falls into. */
  function SessionIndex(parts: seq<seq<ActivityEvent>>, i: nat): nat
    requires i < |Flatten(parts)|
  {
    if i < |parts[0]| then 0 else 1 + SessionIndex(parts[1..], i - |parts[0]|)
  }

  ghost predicate NoGapBetween(s: seq<ActivityEvent>, i: nat, j: nat, gap: u64)
    requires i <= j < |s|
  {
    forall m, n | i <= m < n <= j && n == m + 1 :: s[n].timestamp - s[m].timestamp <= gap
  }

  /** Two positions share a session exactly when no gap between them exceeds the threshold. */
  lemma {:induction false} SameSessionIffNoGap(parts: seq<seq<ActivityEvent>>, s: seq<ActivityEvent>, gap: u64,
                                               i: nat, j: nat)
    requires IsSplit(parts, s, gap) && i <= j < |s|
    ensures SessionIndex(parts, i) == SessionIndex(parts, j) <==> NoGapBetween(s, i, j, gap)
    decreases |parts|
  {
    SplitTail(parts, s, gap);
    assert parts[0] in parts;
    var n := |parts[0]|;
    if j < n {
      forall m, m' | i <= m < m' <= j && m' == m + 1 ensures s[m'].timestamp - s[m].timestamp <= gap {
        assert s[m] == parts[0][m] && s[m'] == parts[0][m'];
      }
    } else if i < n {
      assert Apart(parts[0], parts[1], gap);
      assert s[n - 1] == parts[0][n - 1] && s[n].timestamp - s[n - 1].timestamp > gap;
    } else {
      SameSessionIffNoGap(parts[1..], s[n..], gap, i - n, j - n);
      assert forall m | n <= m < |s| :: s[m] == s[n..][m - n];
      if NoGapBetween(s[n..], i - n, j - n, gap) {
        forall m, m' | i <= m < m' <= j && m' == m + 1 ensures s[m'].timestamp - s[m].timestamp <= gap {
          assert s[m] == s[n..][m - n] && s[m'] == s[n..][m' - n];
        }
      }
    }
  }

  /** So two neighbours share a session exactly when they lie at most the threshold apart. */
  lemma NeighboursShareSession(parts: seq<seq<ActivityEvent>>, s: seq<ActivityEvent>, gap: u64, i: nat)
    requires IsSplit(parts, s, gap) && i + 1 < |s|
    ensures SessionIndex(parts, i) == SessionIndex(parts, i + 1) <==> s[i + 1].timestamp - s[i].timestamp <= gap
    ensures CutAt(s, i + 1, gap) <==> s[i + 1].timestamp - s[i].timestamp > gap
  {
    SameSessionIffNoGap(parts, s, gap, i, i + 1);
  }

  // ---- ties: any sorted order of the same events gives the same sessions ----

  function Times(s: seq<ActivityEvent>): seq<int> {
    seq(|s|, i requires 0 <= i < |s| => s[i].timestamp)
  }

  lemma TimesAround(a: seq<ActivityEvent>, e: ActivityEvent, b: seq<ActivityEvent>)
    ensures multiset(a + [e] + b) == multiset(a + b) + multiset{e}
    ensures multiset(Times(a + [e] + b)) == multiset(Times(a + b)) + multiset{e.timestamp}
  {
    assert Times(a + [e] + b) == Times(a) + [e.timestamp] + Times(b);
    assert Times(a + b) == Times(a) + Times(b);
  }

  /** Some list of the same events without one occurrence of `e`. */
  lemma TakeOut(t: seq<ActivityEvent>, e: ActivityEvent) returns (rest: seq<ActivityEvent>)
    requires e in t
    ensures |rest| == |t| - 1
    ensures multiset(t) == multiset(rest) + multiset{e}
    ensures multiset(Times(t)) == multiset(Times(rest)) + multiset{e.timestamp}
  {
    var j :| 0 <= j < |t| && t[j] == e;
    rest := t[..j] + t[j + 1..];
    assert t == t[..j] + [e] + t[j + 1..];
    TimesAround(t[..j], e, t[j + 1..]);
  }

  lemma SameRest<T>(a: multiset<T>, b: multiset<T>, x: T)
    requires a + multiset{x} == b + multiset{x}
    ensures a == b
  {
    assert a == (a + multiset{x}) - multiset{x};
    assert b == (b + multiset{x}) - multiset{x};
  }

  lemma {:induction false} TimesMultiset(s: seq<ActivityEvent>, t: seq<ActivityEvent>)
    requires multiset(s) == multiset(t)
    ensures multiset(Times(s)) == multiset(Times(t))
    decreases |s|
  {
    if s == [] {
      assert |multiset(t)| == 0;
    } else {
      Sorting.SameElements(s, t);
      var s' := TakeOut(s, s[0]);
      var t' := TakeOut(t, s[0]);
      SameRest(multiset(s'), multiset(t'), s[0]);
      TimesMultiset(s', t');
    }
  }

  ghost predicate Ascends(a: seq<int>) {
    forall i, j | 0 <= i < j < |a| :: a[i] <= a[j]
  }

  /** The first of an ascending sequence is its least element. */
  lemma LeastFirst(a: seq<int>, x: int)
    requires Ascends(a) && x in multiset(a)
    ensures a != [] && a[0] <= x
  {
    assert x in a;
  }

  lemma TailMultiset(a: seq<int>)
    requires a != []
    ensures multiset(a[1..]) == multiset(a) - multiset{a[0]}
  {
    assert a == [a[0]] + a[1..];
  }

  lemma SameFirstNumber(a: seq<int>, b: seq<int>)
    requires multiset(a) == multiset(b) && Ascends(a) && Ascends(b) && a != []
    ensures b != [] && a[0] == b[0]
  {
    assert a[0] in multiset(a);
    LeastFirst(b, a[0]);
    assert b[0] in multiset(b);
    LeastFirst(a, b[0]);
  }

  lemma {:induction false} SortedUnique(a: seq<int>, b: seq<int>)
    requires multiset(a) == multiset(b) && Ascends(a) && Ascends(b)
    ensures a == b
  {
    if a == [] {
      assert |multiset(b)| == 0;
    } else {
      SameFirstNumber(a, b);
      TailMultiset(a);
      TailMultiset(b);
      assert Ascends(a[1..]) && Ascends(b[1..]);
      SortedUnique(a[1..], b[1..]);
      assert a == [a[0]] + a[1..] && b == [b[0]] + b[1..];
    }
  }

  lemma SortedSameTimes(s: seq<ActivityEvent>, t: seq<ActivityEvent>)
    requires multiset(s) == multiset(t) && OldestFirst(s) && OldestFirst(t)
    ensures SameTimes(s, t)
  {
    TimesMultiset(s, t);
    SortedUnique(Times(s), Times(t));
    assert |s| == |Times(s)| && |t| == |Times(t)|;
    assert forall i | 0 <= i < |s| :: Times(s)[i] == s[i].timestamp;
    assert forall i | 0 <= i < |t| :: Times(t)[i] == t[i].timestamp;
  }

  /** The first session holds what is dated up to its end; everything else is later. */
  lemma FirstPartLimits(parts: seq<seq<ActivityEvent>>, s: seq<ActivityEvent>, gap: u64, e: ActivityEvent)
    requires IsSplit(parts, s, gap) && OldestFirst(s) && parts != []
    ensures 0 < |parts[0]| <= |s|
    ensures multiset(s)[e] == multiset(parts[0])[e] + multiset(s[|parts[0]|..])[e]
    ensures e in parts[0] ==> parts[0][0].timestamp <= e.timestamp <= Last(parts[0]).timestamp
    ensures e in s[|parts[0]|..] ==> Last(parts[0]).timestamp < e.timestamp
  {
    SplitTail(parts, s, gap);
    FirstCut(parts, s, gap);
    var n := |parts[0]|;
    assert forall i | 0 <= i < n :: parts[0][i] == s[i];
    if e in s[n..] {
      var i :| n <= i < |s| && s[i] == e;
      assert s[n].timestamp <= s[i].timestamp;
    }
  }

  /** A session holds every event dated within its own limits, as often as the list does. */
  lemma {:induction false} SessionContents(parts: seq<seq<ActivityEvent>>, s: seq<ActivityEvent>, gap: u64,
                                           k: nat, e: ActivityEvent)
    requires IsSplit(parts, s, gap) && OldestFirst(s) && k < |parts| && parts[k] != []
    ensures multiset(parts[k])[e] ==
            if parts[k][0].timestamp <= e.timestamp <= Last(parts[k]).timestamp then multiset(s)[e] else 0
    decreases k
  {
    FirstPartLimits(parts, s, gap, e);
    if k > 0 {
      var rest := s[|parts[0]|..];
      SplitTail(parts, s, gap);
      SessionContents(parts[1..], rest, gap, k - 1, e);
      FirstOfLaterPart(parts[1..], rest, gap, k - 1);
      FirstPartLimits(parts, s, gap, rest[0]);
      assert parts[k] == parts[1..][k - 1];
    }
  }

  lemma FirstOfLaterPart(parts: seq<seq<ActivityEvent>>, s: seq<ActivityEvent>, gap: u64, k: nat)
    requires IsSplit(parts, s, gap) && OldestFirst(s) && k < |parts| && parts[k] != []
    ensures s != [] && s[0].timestamp <= parts[k][0].timestamp
  {
    assert parts == parts[..k] + parts[k..];
    FlattenAppend(parts[..k], parts[k..]);
    var i := |Flatten(parts[..k])|;
    assert s[i] == Flatten(parts[k..])[0] == parts[k][0];
  }

  /** Sessions do not depend on how the sort arranges equal timestamps, even at threshold 0: they
      have the same limits and hold the same events. */
  lemma TiesDoNotMatter(p: seq<seq<ActivityEvent>>, s: seq<ActivityEvent>,
                        q: seq<seq<ActivityEvent>>, t: seq<ActivityEvent>, gap: u64)
    requires IsSplit(p, s, gap) && IsSplit(q, t, gap)
    requires multiset(s) == multiset(t) && OldestFirst(s) && OldestFirst(t)
    ensures |p| == |q|
    ensures forall k | 0 <= k < |p| :: SameTimes(p[k], q[k]) && multiset(p[k]) == multiset(q[k])
  {
    SortedSameTimes(s, t);
    SameBoundaries(p, s, q, t, gap);
    forall k | 0 <= k < |p| ensures multiset(p[k]) == multiset(q[k]) {
      assert p[k] in p && q[k] in q && SameTimes(p[k], q[k]);
      forall e ensures multiset(p[k])[e] == multiset(q[k])[e] {
        SessionContents(p, s, gap, k, e);
        SessionContents(q, t, gap, k, e);
      }
    }
  }

  // ---- windows ----

  predicate InWindow(e: ActivityEvent, a: u64, b: u64) {
    a <= e.timestamp <= b
  }

  /** The events of `s` dated within [a, b], in order. */
  function Within(s: seq<ActivityEvent>, a: u64, b: u64): (r: seq<ActivityEvent>)
    ensures forall e | e in r :: e in s && InWindow(e, a, b)
  {
    if s == [] then []
    else (if InWindow(s[0], a, b) then [s[0]] else []) + Within(s[1..], a, b)
  }

  lemma {:induction false} WithinAppend(s: seq<ActivityEvent>, t: seq<ActivityEvent>, a: u64, b: u64)
    ensures Within(s + t, a, b) == Within(s, a, b) + Within(t, a, b)
  {
    if s == [] {
      assert s + t == t;
    } else {
      assert (s + t)[1..] == s[1..] + t;
      WithinAppend(s[1..], t, a, b);
    }
  }

  lemma {:induction false} WithinMultiset(s: seq<ActivityEvent>, a: u64, b: u64, e: ActivityEvent)
    ensures multiset(Within(s, a, b))[e] == if InWindow(e, a, b) then multiset(s)[e] else 0
  {
    if s != [] {
      assert s == [s[0]] + s[1..];
      WithinMultiset(s[1..], a, b, e);
    }
  }

  lemma WithinSameEvents(s: seq<ActivityEvent>, t: seq<ActivityEvent>, a: u64, b: u64)
    requires multiset(s) == multiset(t)
    ensures multiset(Within(s, a, b)) == multiset(Within(t, a, b))
  {
    forall e ensures multiset(Within(s, a, b))[e] == multiset(Within(t, a, b))[e] {
      WithinMultiset(s, a, b, e);
      WithinMultiset(t, a, b, e);
    }
  }

  /** Each session cut down to the window, without the ones that become empty. */
  function Restrict(parts: seq<seq<ActivityEvent>>, a: u64, b: u64): seq<seq<ActivityEvent>> {
    if parts == [] then []
    else
      var r := Within(parts[0], a, b);
      (if r == [] then [] else [r]) + Restrict(parts[1..], a, b)
  }

  lemma {:induction false} FlattenRestrict(parts: seq<seq<ActivityEvent>>, a: u64, b: u64)
    ensures Flatten(Restrict(parts, a, b)) == Within(Flatten(parts), a, b)
  {
    if parts != [] {
      var r := Within(parts[0], a, b);
      var head := if r == [] then [] else [r];
      FlattenRestrict(parts[1..], a, b);
      FlattenAppend(head, Restrict(parts[1..], a, b));
      FlattenOne(r);
      WithinAppend(parts[0], Flatten(parts[1..]), a, b);
    }
  }

  /** If the first event is in the window and a later one too, so is the second event. */
  lemma WithinNext(s: seq<ActivityEvent>, a: u64, b: u64)
    requires OldestFirst(s) && s != [] && InWindow(s[0], a, b) && Within(s[1..], a, b) != []
    ensures |s| > 1 && Within(s[1..], a, b)[0] == s[1]
  {
    var first := Within(s[1..], a, b)[0];
    assert first in s[1..];
    var i :| 0 <= i < |s[1..]| && s[1..][i] == first;
    assert s[1].timestamp <= s[i + 1].timestamp && s[0].timestamp <= s[1].timestamp;
    assert InWindow(s[1], a, b);
  }

  lemma ConnectedCons(e: ActivityEvent, run: seq<ActivityEvent>, gap: u64)
    requires Connected(run, gap) && (run != [] ==> run[0].timestamp - e.timestamp <= gap)
    ensures Connected([e] + run, gap)
  {
  }

  /** Within a sorted run, the window keeps a contiguous piece, so no new gap appears. */
  lemma {:induction false} WithinRun(s: seq<ActivityEvent>, a: u64, b: u64, gap: u64)
    requires OldestFirst(s) && Connected(s, gap)
    ensures Connected(Within(s, a, b), gap)
  {
    if s != [] {
      var tail := s[1..];
      assert forall i | 0 <= i < |tail| :: tail[i] == s[i + 1];
      WithinRun(tail, a, b, gap);
      if InWindow(s[0], a, b) {
        if Within(tail, a, b) != [] {
          WithinNext(s, a, b);
        }
        ConnectedCons(s[0], Within(tail, a, b), gap);
      }
    }
  }

  lemma OldestFirstCons(e: ActivityEvent, rest: seq<ActivityEvent>)
    requires OldestFirst(rest) && forall x | x in rest :: e.timestamp <= x.timestamp
    ensures OldestFirst([e] + rest)
  {
    var all := [e] + rest;
    forall i, j | 0 <= i < j < |all| ensures all[i].timestamp <= all[j].timestamp {
      assert all[j] == rest[j - 1] && rest[j - 1] in rest;
    }
  }

  lemma OldestFirstWithin(s: seq<ActivityEvent>, a: u64, b: u64)
    requires OldestFirst(s)
    ensures OldestFirst(Within(s, a, b))
    decreases |s|
  {
    if s != [] {
      assert OldestFirst(s[1..]);
      OldestFirstWithin(s[1..], a, b);
      forall e | e in Within(s[1..], a, b) ensures s[0].timestamp <= e.timestamp {
        assert e in s[1..];
      }
      OldestFirstCons(s[0], Within(s[1..], a, b));
    }
  }

  lemma SplitPrepend(run: seq<ActivityEvent>, rest: seq<seq<ActivityEvent>>, s: seq<ActivityEvent>, gap: u64)
    requires IsSplit(rest, s, gap) && run != [] && Connected(run, gap)
    requires rest != [] ==> Apart(run, rest[0], gap)
    ensures IsSplit([run] + rest, run + s, gap)
  {
    var all := [run] + rest;
    assert all[1..] == rest;
    forall i, j | 0 <= i < j < |all| && j == i + 1 ensures Apart(all[i], all[j], gap) {
      if i > 0 {
        assert Apart(rest[i - 1], rest[j - 1], gap);
      }
    }
  }

  /** Restricting the sessions gives the sessions of the restricted list. */
  lemma {:induction false} RestrictIsSplit(parts: seq<seq<ActivityEvent>>, s: seq<ActivityEvent>, gap: u64,
                                           a: u64, b: u64)
    requires IsSplit(parts, s, gap) && OldestFirst(s)
    ensures IsSplit(Restrict(parts, a, b), Within(s, a, b), gap)
    decreases |parts|
  {
    FlattenRestrict(parts, a, b);
    if parts != [] {
      SplitTail(parts, s, gap);
      FirstCut(parts, s, gap);
      var n := |parts[0]|;
      assert forall i | 0 <= i < n :: parts[0][i] == s[i];
      assert forall i | 0 <= i < |s[n..]| :: s[n..][i] == s[n + i];
      assert parts[0] in parts;
      RestrictIsSplit(parts[1..], s[n..], gap, a, b);
      WithinRun(parts[0], a, b, gap);
      var r, rest := Within(parts[0], a, b), Restrict(parts[1..], a, b);
      if r != [] {
        RestrictJoin(parts, s, gap, a, b);
        SplitPrepend(r, rest, Within(s[n..], a, b), gap);
      }
    }
  }

  lemma RestrictJoin(parts: seq<seq<ActivityEvent>>, s: seq<ActivityEvent>, gap: u64, a: u64, b: u64)
    requires IsSplit(parts, s, gap) && OldestFirst(s) && parts != [] && Within(parts[0], a, b) != []
    requires var n := |parts[0]|; n <= |s| && IsSplit(Restrict(parts[1..], a, b), Within(s[n..], a, b), gap)
    ensures Restrict(parts[1..], a, b) != [] ==> Apart(Within(parts[0], a, b), Restrict(parts[1..], a, b)[0], gap)
  {
    var n := |parts[0]|;
    var r, rest := Within(parts[0], a, b), Restrict(parts[1..], a, b);
    SplitTail(parts, s, gap);
    FirstCut(parts, s, gap);
    assert forall i | 0 <= i < n :: parts[0][i] == s[i];
    if rest != [] {
      assert rest[0] in rest && rest[0] != [];
      var first := rest[0][0];
      assert Within(s[n..], a, b)[0] == first;
      assert first in s[n..];
      assert s[n].timestamp <= first.timestamp;
      assert Last(r) in parts[0];
      assert Last(r).timestamp <= s[n - 1].timestamp;
    }
  }

  // ---- thresholds ----

  /** The number of gaps in `s` that exceed the threshold. */
  function Cuts(s: seq<ActivityEvent>, gap: u64): nat {
    if |s| < 2 then 0
    else Cuts(s[..|s| - 1], gap) + (if CutAt(s, |s| - 1, gap) then 1 else 0)
  }

  /** The positions before which the gap exceeds the threshold. */
  function GapsAbove(s: seq<ActivityEvent>, gap: u64): set<int> {
    set i | 0 < i < |s| && CutAt(s, i, gap)
  }

  lemma {:induction false} CutsAreGaps(s: seq<ActivityEvent>, gap: u64)
    ensures Cuts(s, gap) == |GapsAbove(s, gap)|
  {
    if |s| >= 2 {
      var n := |s| - 1;
      CutsAreGaps(s[..n], gap);
      assert GapsAbove(s, gap) == GapsAbove(s[..n], gap) + if CutAt(s, n, gap) then {n} else {};
    } else {
      assert GapsAbove(s, gap) == {};
    }
  }

  lemma {:induction false} SessionCount(parts: seq<seq<ActivityEvent>>, s: seq<ActivityEvent>, gap: u64)
    requires IsSplit(parts, s, gap) && s != []
    ensures |parts| == 1 + Cuts(s, gap)
    decreases |s|
  {
    SplitUnique(parts, s, gap);
    if |s| > 1 {
      var t := s[..|s| - 1];
      SplitOfIsSplit(t, gap);
      SessionCount(SplitOf(t, gap), t, gap);
    }
  }

  lemma JoinSplits(p: seq<seq<ActivityEvent>>, s: seq<ActivityEvent>,
                   q: seq<seq<ActivityEvent>>, t: seq<ActivityEvent>, gap: u64)
    requires IsSplit(p, s, gap) && IsSplit(q, t, gap)
    requires s != [] && t != [] ==> t[0].timestamp - Last(s).timestamp > gap
    ensures IsSplit(p + q, s + t, gap)
  {
    FlattenAppend(p, q);
    SplitEmpty(p, s, gap);
    SplitEmpty(q, t, gap);
    if s != [] && t != [] {
      SplitLast(p, s, gap);
      SplitTail(q, t, gap);
      assert q[0] in q && t[0] == q[0][0];
      assert Apart(Last(p), q[0], gap);
    }
    var all := p + q;
    forall i, j | 0 <= i < j < |all| && j == i + 1 ensures Apart(all[i], all[j], gap) {
      if j < |p| {
        assert Apart(p[i], p[j], gap);
      } else if i >= |p| {
        assert Apart(q[i - |p|], q[j - |p|], gap);
      }
    }
  }

  /** Each coarse session, split again at the finer threshold. */
  function Refine(coarse: seq<seq<ActivityEvent>>, gap: u64): seq<seq<seq<ActivityEvent>>> {
    seq(|coarse|, k requires 0 <= k < |coarse| => SplitOf(coarse[k], gap))
  }

  lemma {:induction false} RefineIsSplit(coarse: seq<seq<ActivityEvent>>, s: seq<ActivityEvent>,
                                         fineGap: u64, coarseGap: u64)
    requires fineGap <= coarseGap && IsSplit(coarse, s, coarseGap)
    ensures IsSplit(Flatten(Refine(coarse, fineGap)), s, fineGap)
    decreases |coarse|
  {
    if coarse != [] {
      SplitTail(coarse, s, coarseGap);
      FirstCut(coarse, s, coarseGap);
      var n := |coarse[0]|;
      RefineIsSplit(coarse[1..], s[n..], fineGap, coarseGap);
      SplitOfIsSplit(coarse[0], fineGap);
      assert coarse[0] == s[..n];
      assert Refine(coarse, fineGap)[0] == SplitOf(coarse[0], fineGap);
      assert Refine(coarse, fineGap)[1..] == Refine(coarse[1..], fineGap);
      JoinSplits(SplitOf(coarse[0], fineGap), coarse[0], Flatten(Refine(coarse[1..], fineGap)), s[n..], fineGap);
    }
  }

  /** Raising the threshold only joins neighbouring sessions: every coarse session is a
      concatenation of consecutive fine ones. */
  lemma CoarserThreshold(fine: seq<seq<ActivityEvent>>, coarse: seq<seq<ActivityEvent>>, s: seq<ActivityEvent>,
                         fineGap: u64, coarseGap: u64)
    requires fineGap <= coarseGap && IsSplit(fine, s, fineGap) && IsSplit(coarse, s, coarseGap)
    ensures exists groups: seq<seq<seq<ActivityEvent>>> ::
              |groups| == |coarse| && Flatten(groups) == fine &&
              forall k | 0 <= k < |coarse| :: Flatten(groups[k]) == coarse[k]
  {
    var groups := Refine(coarse, fineGap);
    RefineIsSplit(coarse, s, fineGap, coarseGap);
    SplitUnique(Flatten(groups), s, fineGap);
    SplitUnique(fine, s, fineGap);
    forall k | 0 <= k < |coarse| ensures Flatten(groups[k]) == coarse[k] {
      SplitOfIsSplit(coarse[k], fineGap);
    }
  }
}
