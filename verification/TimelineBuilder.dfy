/** The timeline builder (timeline_builder.cpp). */
module TimelineBuilders {
  import opened Base
  import opened Text
  import opened Events
  import opened Sessions
  import Sorting

  datatype Session = Session(startTime: u64, endTime: u64, primaryApp: string, events: seq<ActivityEvent>)

  datatype Timeline = Timeline(periodStart: u64, periodEnd: u64, sessions: seq<Session>)

  function EventsOf(sessions: seq<Session>): seq<seq<ActivityEvent>> {
    seq(|sessions|, k requires 0 <= k < |sessions| => sessions[k].events)
  }

  // ---- the primary application ----

  /** The base names of the sources, one per event. */
  function AppNames(events: seq<ActivityEvent>): seq<string> {
    seq(|events|, i requires 0 <= i < |events| => BaseName(events[i].source))
  }

  lemma AppNamesAppend(events: seq<ActivityEvent>, e: ActivityEvent)
    ensures multiset(AppNames(events + [e])) == multiset(AppNames(events)) + multiset{BaseName(e.source)}
  {
    assert AppNames(events + [e]) == AppNames(events) + [BaseName(e.source)];
  }

  /** `counts` gives the multiplicity of each name, and of nothing else. */
  ghost predicate CountsOf(counts: map<string, nat>, names: multiset<string>) {
    && (forall app :: app in counts <==> app in names)
    && (forall app | app in counts :: counts[app] == names[app])
  }

  lemma CountOne(counts: map<string, nat>, names: multiset<string>, app: string)
    requires CountsOf(counts, names)
    ensures CountsOf(counts[app := (if app in counts then counts[app] else 0) + 1], names + multiset{app})
  {
  }

  /** A base name that occurs in the session, and none occurs more often. */
  ghost predicate IsPrimaryApp(app: string, events: seq<ActivityEvent>) {
    app in AppNames(events) &&
    forall other :: multiset(AppNames(events))[other] <= multiset(AppNames(events))[app]
  }

  ghost predicate IsClosed(s: Session) {
    && s.events != []
    && s.startTime == s.events[0].timestamp
    && s.endTime == Last(s.events).timestamp
    && IsPrimaryApp(s.primaryApp, s.events)
  }

  /** `t` is a timeline of `events` but for its period: its sessions split some time-ordered
      arrangement of exactly these events. */
  ghost predicate HasSessionsOf(t: Timeline, events: seq<ActivityEvent>, gap: u64) {
    var parts := EventsOf(t.sessions);
    && multiset(Flatten(parts)) == multiset(events)
    && OldestFirst(Flatten(parts))
    && IsSplit(parts, Flatten(parts), gap)
    && forall s | s in t.sessions :: IsClosed(s)
  }

  /** From the earliest timestamp to the latest. */
  ghost predicate IsPeriodOf(start: u64, end: u64, events: seq<ActivityEvent>) {
    && (forall e | e in events :: start <= e.timestamp <= end)
    && (exists e | e in events :: e.timestamp == start)
    && (exists e | e in events :: e.timestamp == end)
  }

  ghost predicate IsTimelineOf(t: Timeline, events: seq<ActivityEvent>, gap: u64) {
    && HasSessionsOf(t, events, gap)
    && (events == [] ==> t == Timeline(0, 0, []))
    && (events != [] ==> IsPeriodOf(t.periodStart, t.periodEnd, events))
  }

  ghost predicate IsTimelineOfWindow(t: Timeline, events: seq<ActivityEvent>, a: u64, b: u64, gap: u64) {
    HasSessionsOf(t, Within(events, a, b), gap) && t.periodStart == a && t.periodEnd == b
  }

  /** The loop of `build`: the closed sessions and the open one split what has been read. */
  ghost predicate InProgress(sessions: seq<Session>, current: Session, s: seq<ActivityEvent>, gap: u64) {
    && s != [] && current.events != []
    && current.startTime == current.events[0].timestamp
    && IsSplit(EventsOf(sessions) + [current.events], s, gap)
    && forall c | c in sessions :: IsClosed(c)
  }

  lemma EventsOfAppend(sessions: seq<Session>, s: Session)
    ensures EventsOf(sessions + [s]) == EventsOf(sessions) + [s.events]
  {
  }

  /** The next event joins the open session. */
  lemma StepExtends(sessions: seq<Session>, current: Session, s: seq<ActivityEvent>, e: ActivityEvent, gap: u64)
    requires InProgress(sessions, current, s, gap) && e.timestamp - Last(s).timestamp <= gap
    ensures InProgress(sessions, current.(events := current.events + [e]), s + [e], gap)
  {
    SplitLast(EventsOf(sessions) + [current.events], s, gap);
    SplitExtend(EventsOf(sessions), current.events, s, e, gap);
  }

  /** The open session is closed, and the next event opens another. */
  lemma StepOpens(sessions: seq<Session>, current: Session, closed: Session, s: seq<ActivityEvent>,
                  e: ActivityEvent, gap: u64)
    requires InProgress(sessions, current, s, gap) && e.timestamp - Last(s).timestamp > gap
    requires IsClosed(closed) && closed.events == current.events
    ensures InProgress(sessions + [closed], Session(e.timestamp, 0, "", [e]), s + [e], gap)
  {
    SplitLast(EventsOf(sessions) + [current.events], s, gap);
    SplitOpen(EventsOf(sessions), current.events, s, e, gap);
    EventsOfAppend(sessions, closed);
  }

  /** Closing the last session. */
  lemma StepCloses(sessions: seq<Session>, current: Session, closed: Session, s: seq<ActivityEvent>, gap: u64)
    requires InProgress(sessions, current, s, gap)
    requires IsClosed(closed) && closed.events == current.events
    ensures IsSplit(EventsOf(sessions + [closed]), s, gap)
    ensures forall c | c in sessions + [closed] :: IsClosed(c)
  {
    EventsOfAppend(sessions, closed);
  }

  lemma OpenEndsAt(sessions: seq<Session>, current: Session, s: seq<ActivityEvent>, gap: u64)
    requires InProgress(sessions, current, s, gap)
    ensures Last(current.events) == Last(s)
  {
    SplitLast(EventsOf(sessions) + [current.events], s, gap);
  }

  lemma SortedOldestFirst(sorted: seq<ActivityEvent>)
    requires Sorting.SortedBy(NotLater, sorted)
    ensures OldestFirst(sorted)
  {
    forall i, j | 0 <= i < j < |sorted| ensures sorted[i].timestamp <= sorted[j].timestamp {
      assert NotLater(sorted[i], sorted[j]);
    }
  }

  lemma SortedPeriod(sorted: seq<ActivityEvent>, events: seq<ActivityEvent>)
    requires sorted != [] && OldestFirst(sorted) && multiset(sorted) == multiset(events)
    ensures events != []
    ensures IsPeriodOf(sorted[0].timestamp, Last(sorted).timestamp, events)
  {
    Sorting.SameElements(sorted, events);
    assert sorted[0] in events && Last(sorted) in events;
  }

  class TimelineBuilder {
    var gapThreshold: u64

    constructor (seconds: u64)
      ensures gapThreshold == seconds
    {
      gapThreshold := seconds;
    }

    method SetGapThreshold(seconds: u64)
      modifies this
      ensures gapThreshold == seconds
    {
      gapThreshold := seconds;
    }

    /** Counts base names into a map, then walks the map in whatever order it comes. */
    method DeterminePrimaryApp(events: seq<ActivityEvent>) returns (primary: string)
      ensures events != [] ==> IsPrimaryApp(primary, events)
      ensures events == [] ==> primary == ""
    {
      var counts := CountApps(events);
      primary := "";
      var maxCount := 0;
      var todo := counts.Keys;
      while todo != {}
        invariant todo <= counts.Keys
        invariant forall app | app in counts && app !in todo :: counts[app] <= maxCount
        invariant if maxCount == 0 then primary == "" else primary in counts && counts[primary] == maxCount
      {
        var app :| app in todo;
        todo := todo - {app};
        if counts[app] > maxCount {
          maxCount, primary := counts[app], app;
        }
      }
      if events != [] {
        assert AppNames(events)[0] in multiset(AppNames(events));
        assert AppNames(events)[0] in counts;
      }
    }

    method CountApps(events: seq<ActivityEvent>) returns (counts: map<string, nat>)
      ensures CountsOf(counts, multiset(AppNames(events)))
    {
      counts := map[];
      for i := 0 to |events|
        invariant CountsOf(counts, multiset(AppNames(events[..i])))
      {
        var app := StripDirectories(events[i].source);
        assert events[..i + 1] == events[..i] + [events[i]];
        AppNamesAppend(events[..i], events[i]);
        CountOne(counts, multiset(AppNames(events[..i])), app);
        counts := counts[app := (if app in counts then counts[app] else 0) + 1];
      }
      assert events[..|events|] == events;
    }

    method Build(events: seq<ActivityEvent>) returns (timeline: Timeline)
      ensures IsTimelineOf(timeline, events, gapThreshold)
    {
      if events == [] {
        timeline := Timeline(0, 0, []);
        return;
      }
      var sorted := Sorting.StdSort(events, NotLater);
      Sorting.SameElements(sorted, events);
      SortedOldestFirst(sorted);
      var n := |sorted|;
      var current := Session(sorted[0].timestamp, 0, "", [sorted[0]]);
      var sessions: seq<Session> := [];
      SplitOfOne(sorted[0], gapThreshold);
      assert [] + [current.events] == [[sorted[0]]];
      for i := 1 to n
        invariant InProgress(sessions, current, sorted[..i], gapThreshold)
      {
        assert sorted[..i] + [sorted[i]] == sorted[..i + 1];
        assert Last(sorted[..i]) == sorted[i - 1];
        var gap := sorted[i].timestamp - sorted[i - 1].timestamp;
        if gap > gapThreshold {
          OpenEndsAt(sessions, current, sorted[..i], gapThreshold);
          var app := DeterminePrimaryApp(current.events);
          var closed := current.(endTime := sorted[i - 1].timestamp, primaryApp := app);
          StepOpens(sessions, current, closed, sorted[..i], sorted[i], gapThreshold);
          sessions := sessions + [closed];
          current := Session(sorted[i].timestamp, 0, "", []);
          assert current.events + [sorted[i]] == [sorted[i]];
        } else {
          StepExtends(sessions, current, sorted[..i], sorted[i], gapThreshold);
        }
        current := current.(events := current.events + [sorted[i]]);
      }
      assert sorted[..n] == sorted;
      OpenEndsAt(sessions, current, sorted, gapThreshold);
      var app := DeterminePrimaryApp(current.events);
      var closed := current.(endTime := sorted[n - 1].timestamp, primaryApp := app);
      StepCloses(sessions, current, closed, sorted, gapThreshold);
      timeline := Timeline(sorted[0].timestamp, sorted[n - 1].timestamp, sessions + [closed]);
      SortedPeriod(sorted, events);
    }

    method BuildWindow(events: seq<ActivityEvent>, periodStart: u64, periodEnd: u64) returns (timeline: Timeline)
      ensures IsTimelineOfWindow(timeline, events, periodStart, periodEnd, gapThreshold)
    {
      var filtered: seq<ActivityEvent> := [];
      for i := 0 to |events|
        invariant filtered == Within(events[..i], periodStart, periodEnd)
      {
        assert events[..i + 1] == events[..i] + [events[i]];
        WithinAppend(events[..i], [events[i]], periodStart, periodEnd);
        if periodStart <= events[i].timestamp <= periodEnd {
          filtered := filtered + [events[i]];
        }
      }
      assert events[..|events|] == events;
      timeline := Build(filtered);
      timeline := timeline.(periodStart := periodStart, periodEnd := periodEnd);
    }
  }

  // ---- theorems about any timelines the builder may return ----

  lemma SessionLimits(t: Timeline, events: seq<ActivityEvent>, gap: u64, k: nat)
    requires HasSessionsOf(t, events, gap) && k < |t.sessions|
    ensures IsClosed(t.sessions[k]) && t.sessions[k].events == EventsOf(t.sessions)[k]
  {
    assert t.sessions[k] in t.sessions;
  }

  /** A session's limits and events, seen as one part of a split with the same timestamps. */
  ghost predicate SessionAgrees(s: Session, part: seq<ActivityEvent>) {
    && part != []
    && s.startTime == part[0].timestamp
    && s.endTime == Last(part).timestamp
    && multiset(s.events) == multiset(part)
  }

  /** The sessions of a timeline agree with any split of any sorted arrangement of its events. */
  lemma SessionsAgree(t: Timeline, events: seq<ActivityEvent>, parts: seq<seq<ActivityEvent>>,
                      s: seq<ActivityEvent>, gap: u64)
    requires HasSessionsOf(t, events, gap)
    requires IsSplit(parts, s, gap) && OldestFirst(s) && multiset(s) == multiset(events)
    ensures |t.sessions| == |parts|
    ensures forall k | 0 <= k < |parts| :: SessionAgrees(t.sessions[k], parts[k])
  {
    var q := EventsOf(t.sessions);
    TiesDoNotMatter(q, Flatten(q), parts, s, gap);
    forall k | 0 <= k < |parts| ensures SessionAgrees(t.sessions[k], parts[k]) {
      SessionLimits(t, events, gap, k);
      assert parts[k] in parts && SameTimes(q[k], parts[k]);
    }
  }

  lemma PeriodIsDetermined(a: u64, b: u64, events: seq<ActivityEvent>, a': u64, b': u64, events': seq<ActivityEvent>)
    requires IsPeriodOf(a, b, events) && IsPeriodOf(a', b', events') && multiset(events) == multiset(events')
    ensures a == a' && b == b'
  {
    Sorting.SameElements(events, events');
  }

  /** Any two timelines of the same events, in whatever order they were given and however ties were
      sorted, agree: same period, same session limits, same events in each session. */
  lemma TimelineIsDetermined(t: Timeline, events: seq<ActivityEvent>, t': Timeline, events': seq<ActivityEvent>,
                             gap: u64)
    requires IsTimelineOf(t, events, gap) && IsTimelineOf(t', events', gap) && multiset(events) == multiset(events')
    ensures t.periodStart == t'.periodStart && t.periodEnd == t'.periodEnd
    ensures |t.sessions| == |t'.sessions|
    ensures forall k | 0 <= k < |t.sessions| ::
              SessionAgrees(t.sessions[k], t'.sessions[k].events) &&
              t.sessions[k].startTime == t'.sessions[k].startTime && t.sessions[k].endTime == t'.sessions[k].endTime
  {
    var q := EventsOf(t'.sessions);
    SessionsAgree(t, events, q, Flatten(q), gap);
    forall k | 0 <= k < |t'.sessions| ensures IsClosed(t'.sessions[k]) && q[k] == t'.sessions[k].events {
      SessionLimits(t', events', gap, k);
    }
    Sorting.SameElements(events, events');
    if events != [] {
      PeriodIsDetermined(t.periodStart, t.periodEnd, events, t'.periodStart, t'.periodEnd, events');
    }
  }

  /** The sessions of a window hold each event dated from `a` to `b` as often as it was given, and no
      other event. */
  lemma WindowHolds(w: Timeline, events: seq<ActivityEvent>, a: u64, b: u64, gap: u64, e: ActivityEvent)
    requires IsTimelineOfWindow(w, events, a, b, gap)
    ensures multiset(Flatten(EventsOf(w.sessions)))[e] == if a <= e.timestamp <= b then multiset(events)[e] else 0
  {
    WithinMultiset(events, a, b, e);
  }

  /** The sessions of a window are the sessions of everything, each cut down to the window, without
      the ones that become empty: same number, same limits, same events. */
  lemma WindowCommutes(t: Timeline, w: Timeline, events: seq<ActivityEvent>, a: u64, b: u64, gap: u64)
    requires IsTimelineOf(t, events, gap) && IsTimelineOfWindow(w, events, a, b, gap)
    ensures var cut := Restrict(EventsOf(t.sessions), a, b);
            && |w.sessions| == |cut|
            && forall k | 0 <= k < |cut| :: SessionAgrees(w.sessions[k], cut[k])
  {
    var p := EventsOf(t.sessions);
    var s := Flatten(p);
    RestrictIsSplit(p, s, gap, a, b);
    OldestFirstWithin(s, a, b);
    WithinSameEvents(s, events, a, b);
    SessionsAgree(w, Within(events, a, b), Restrict(p, a, b), Within(s, a, b), gap);
  }

  /** There is one session more than there are gaps above the threshold. */
  lemma SessionCounts(t: Timeline, events: seq<ActivityEvent>, gap: u64)
    requires IsTimelineOf(t, events, gap) && events != []
    ensures |t.sessions| == 1 + |GapsAbove(Flatten(EventsOf(t.sessions)), gap)|
  {
    var p := EventsOf(t.sessions);
    Sorting.SameElements(Flatten(p), events);
    SessionCount(p, Flatten(p), gap);
    CutsAreGaps(Flatten(p), gap);
  }

  /** Consecutive groups of fine sessions, each of which put together is one coarse session. */
  ghost predicate IsGrouping(groups: seq<seq<seq<ActivityEvent>>>, fine: seq<Session>, coarse: seq<Session>) {
    && |groups| == |coarse|
    && (forall k | 0 <= k < |coarse| :: Flatten(groups[k]) == coarse[k].events)
    && |Flatten(groups)| == |fine|
    && (forall k | 0 <= k < |fine| :: SessionAgrees(fine[k], Flatten(groups)[k]))
  }

  /** Raising the threshold only joins neighbouring sessions. */
  lemma HigherThresholdJoins(fine: Timeline, coarse: Timeline, events: seq<ActivityEvent>, low: u64, high: u64)
    requires low <= high && IsTimelineOf(fine, events, low) && IsTimelineOf(coarse, events, high)
    ensures exists groups :: IsGrouping(groups, fine.sessions, coarse.sessions)
  {
    var q := EventsOf(coarse.sessions);
    var groups := Refine(q, low);
    RefineIsSplit(q, Flatten(q), low, high);
    SessionsAgree(fine, events, Flatten(groups), Flatten(q), low);
    forall k | 0 <= k < |q| ensures Flatten(groups[k]) == coarse.sessions[k].events {
      SplitOfIsSplit(q[k], low);
    }
    assert IsGrouping(groups, fine.sessions, coarse.sessions);
  }
}
