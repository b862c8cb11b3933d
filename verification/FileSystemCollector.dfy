/** Change detection by comparing write times between scans (filesystem_collector.cpp). */
module FileSystemCollectors {
  import opened Base
  import opened Events

  /** A tracked file as one step of a scan finds it, with the clock reading of that moment. `delivered`
      is false when an exception between the update of the table and the end of the callback is
      swallowed. */
  datatype Observation = Observation(
    path: string, lastWrite: int, now: u64, name: string, extension: string, size: Option<string>, delivered: bool)

  /** What the comparison of one observation with the table amounts to. */
  function ChangeIn(states: map<string, int>, o: Observation): Option<EventType> {
    if o.path !in states then Some(FileOpened)
    else if states[o.path] != o.lastWrite then Some(FileModified)
    else None
  }

  datatype Change = Change(path: string, kind: EventType, delivered: bool)

  /** The table after all observations: the last write time seen for each path. */
  function LastSeen(obs: seq<Observation>): map<string, int> {
    if obs == [] then map[] else LastSeen(obs[..|obs| - 1])[obs[|obs| - 1].path := obs[|obs| - 1].lastWrite]
  }

  /** All changes noticed over the observations, in order. */
  function Changes(obs: seq<Observation>): seq<Change> {
    if obs == [] then []
    else
      var before, o := obs[..|obs| - 1], obs[|obs| - 1];
      var change := ChangeIn(LastSeen(before), o);
      if change.Some? then Changes(before) + [Change(o.path, change.value, o.delivered)] else Changes(before)
  }

  function EventFor(o: Observation, kind: EventType): ActivityEvent {
    var title := if kind == FileOpened then "File discovered: " else "File modified: ";
    var sizes: map<string, string> := if o.size.Some? then map["size" := o.size.value] else map[];
    ActivityEvent(0, o.now, kind, o.path, title + o.name, sizes["extension" := o.extension])
  }

  /** What the event of a change says. */
  lemma ChangeTexts(o: Observation)
    ensures var e := EventFor(o, FileOpened);
            && e.kind == FileOpened && e.source == o.path && e.timestamp == o.now
            && e.content == "File discovered: " + o.name
            && e.metadata == (if o.size.Some? then map["size" := o.size.value, "extension" := o.extension]
                              else map["extension" := o.extension])
            && EventFor(o, FileModified) == e.(kind := FileModified, content := "File modified: " + o.name)
  {
  }

  /** Where an event came from and what it says happened. */
  function Trace(events: seq<ActivityEvent>): seq<(string, EventType)> {
    seq(|events|, i requires 0 <= i < |events| => (events[i].source, events[i].kind))
  }

  /** The changes that reached the callback. */
  function Delivered(changes: seq<Change>): seq<(string, EventType)> {
    if changes == [] then []
    else
      var rest, last := Delivered(changes[..|changes| - 1]), changes[|changes| - 1];
      if last.delivered then rest + [(last.path, last.kind)] else rest
  }

  lemma DeliveredAppend(changes: seq<Change>, c: Change)
    ensures Delivered(changes + [c]) ==
            if c.delivered then Delivered(changes) + [(c.path, c.kind)] else Delivered(changes)
  {
    assert (changes + [c])[..|changes|] == changes;
  }

  /** What one more observation does to the table and to the log. */
  lemma ObserveOne(before: seq<Observation>, o: Observation)
    ensures var change := ChangeIn(LastSeen(before), o);
            && LastSeen(before + [o]) ==
                 (if change.Some? then LastSeen(before)[o.path := o.lastWrite] else LastSeen(before))
            && Delivered(Changes(before + [o])) == if change.Some? && o.delivered
                                                   then Delivered(Changes(before)) + [(o.path, change.value)]
                                                   else Delivered(Changes(before))
  {
    assert (before + [o])[..|before|] == before;
    var change := ChangeIn(LastSeen(before), o);
    if change.Some? {
      DeliveredAppend(Changes(before), Change(o.path, change.value, o.delivered));
    }
  }

  class FileSystemCollector {
    var fileStates: map<string, int>
    ghost var seen: seq<Observation>                 // all observations of all scans
    ghost var emitted: seq<(string, EventType)>      // all events of all scans

    ghost predicate Valid()
      reads this
    {
      fileStates == LastSeen(seen) && emitted == Delivered(Changes(seen))
    }

    constructor ()
      ensures Valid() && seen == [] && emitted == []
    {
      fileStates, seen, emitted := map[], [], [];
    }

    /** The comparison for one tracked file; the event is `None` when nothing is emitted. */
    method Observe(o: Observation) returns (event: Option<ActivityEvent>)
      requires Valid()
      modifies this
      ensures Valid() && seen == old(seen) + [o]
      ensures event == None ==> emitted == old(emitted)
      ensures event.Some? ==> event.value == EventFor(o, event.value.kind)
      ensures event.Some? ==> emitted == old(emitted) + [(event.value.source, event.value.kind)]
    {
      ObserveOne(seen, o);
      event := None;
      if o.path !in fileStates {
        fileStates := fileStates[o.path := o.lastWrite];
        event := if o.delivered then Some(EventFor(o, FileOpened)) else None;
      } else if fileStates[o.path] != o.lastWrite {
        fileStates := fileStates[o.path := o.lastWrite];
        event := if o.delivered then Some(EventFor(o, FileModified)) else None;
      }
      seen := seen + [o];
      if event.Some? {
        emitted := emitted + [(event.value.source, event.value.kind)];
      }
    }

    /** One scan, over the tracked files it gets to before it ends or is cut short. */
    method ScanDirectory(obs: seq<Observation>) returns (events: seq<ActivityEvent>)
      requires Valid()
      modifies this
      ensures Valid() && seen == old(seen) + obs && emitted == old(emitted) + Trace(events)
      ensures ComeFrom(events, obs)
    {
      events := [];
      for i := 0 to |obs|
        invariant Valid() && seen == old(seen) + obs[..i] && emitted == old(emitted) + Trace(events)
        invariant ComeFrom(events, obs)
      {
        assert obs[..i + 1] == obs[..i] + [obs[i]];
        Associative(old(seen), obs[..i], [obs[i]]);
        var event := Observe(obs[i]);
        if event.Some? {
          ComeFromAppended(events, event.value, obs, i);
          TraceOfAppended(events, event.value);
          Associative(old(emitted), Trace(events), [(event.value.source, event.value.kind)]);
          events := events + [event.value];
        }
      }
      assert obs[..|obs|] == obs;
    }
  }

  /** Every event is what one of the observations calls for. */
  ghost predicate ComeFrom(events: seq<ActivityEvent>, obs: seq<Observation>) {
    forall e | e in events :: exists o | o in obs :: e == EventFor(o, e.kind)
  }

  lemma ComeFromAppended(events: seq<ActivityEvent>, e: ActivityEvent, obs: seq<Observation>, i: nat)
    requires ComeFrom(events, obs) && i < |obs| && e == EventFor(obs[i], e.kind)
    ensures ComeFrom(events + [e], obs)
  {
    assert obs[i] in obs;
  }

  lemma TraceOfAppended(events: seq<ActivityEvent>, e: ActivityEvent)
    ensures Trace(events + [e]) == Trace(events) + [(e.source, e.kind)]
  {
  }

  // ---- the change log of one path ----

  /** The write times seen for a path, in order. */
  function TimesOf(obs: seq<Observation>, path: string): seq<int> {
    if obs == [] then []
    else
      var rest, o := TimesOf(obs[..|obs| - 1], path), obs[|obs| - 1];
      if o.path == path then rest + [o.lastWrite] else rest
  }

  /** Consecutive repeats removed. */
  function Destutter(times: seq<int>): seq<int> {
    if |times| < 2 then times
    else
      var n := |times| - 1;
      if times[n] != times[n - 1] then Destutter(times[..n]) + [times[n]] else Destutter(times[..n])
  }

  /** What removing repeats means: a list without consecutive repeats stays as it is, and of two equal
      neighbours one can go first. */
  lemma {:induction false} DestutterVaried(times: seq<int>)
    requires forall i, j | 0 <= i < j < |times| && j == i + 1 :: times[i] != times[j]
    ensures Destutter(times) == times
  {
    if |times| >= 2 {
      var n := |times| - 1;
      DestutterVaried(times[..n]);
      assert times == times[..n] + [times[n]];
    }
  }

  lemma {:induction false} DestutterDropsRepeat(a: seq<int>, t: int, b: seq<int>)
    ensures Destutter(a + [t, t] + b) == Destutter(a + [t] + b)
    decreases |b|
  {
    var twice, once := a + [t, t] + b, a + [t] + b;
    var n := |once| - 1;
    if b == [] {
      assert twice == a + [t] + [t] && once == a + [t];
      assert twice[..|twice| - 1] == once;
    } else {
      var m := |b| - 1;
      assert twice[..n + 1] == a + [t, t] + b[..m] && once[..n] == a + [t] + b[..m];
      DestutterDropsRepeat(a, t, b[..m]);
      assert twice[n + 1] == once[n] == b[m] && twice[n] == once[n - 1];
    }
  }

  function KindsOf(changes: seq<Change>, path: string): seq<EventType> {
    if changes == [] then []
    else
      var rest, c := KindsOf(changes[..|changes| - 1], path), changes[|changes| - 1];
      if c.path == path then rest + [c.kind] else rest
  }

  /** One FileOpened, then one FileModified per further entry. */
  function LogOf(times: seq<int>): seq<EventType> {
    seq(|times|, i => if i == 0 then FileOpened else FileModified)
  }

  lemma KindsAppend(changes: seq<Change>, c: Change, path: string)
    ensures KindsOf(changes + [c], path) ==
            if c.path == path then KindsOf(changes, path) + [c.kind] else KindsOf(changes, path)
  {
    assert (changes + [c])[..|changes|] == changes;
  }

  lemma {:induction false} LastSeenIsLastTime(obs: seq<Observation>, path: string)
    ensures path in LastSeen(obs) <==> TimesOf(obs, path) != []
    ensures path in LastSeen(obs) ==> LastSeen(obs)[path] == TimesOf(obs, path)[|TimesOf(obs, path)| - 1]
  {
    if obs != [] {
      LastSeenIsLastTime(obs[..|obs| - 1], path);
    }
  }

  lemma {:induction false} DestutterNonEmpty(times: seq<int>)
    ensures Destutter(times) == [] <==> times == []
    ensures times != [] ==> Destutter(times)[|Destutter(times)| - 1] == times[|times| - 1]
  {
    if |times| >= 2 {
      DestutterNonEmpty(times[..|times| - 1]);
    }
  }

  /** Over any scans, complete or cut short, the changes noticed for a path are those of its write
      times with consecutive repeats removed, and the table holds its last write time. */
  lemma {:induction false} ChangeLogIsDestutter(obs: seq<Observation>, path: string)
    ensures KindsOf(Changes(obs), path) == LogOf(Destutter(TimesOf(obs, path)))
    ensures path in LastSeen(obs) <==> TimesOf(obs, path) != []
    ensures path in LastSeen(obs) ==> LastSeen(obs)[path] == TimesOf(obs, path)[|TimesOf(obs, path)| - 1]
  {
    LastSeenIsLastTime(obs, path);
    if obs != [] {
      var before, o := obs[..|obs| - 1], obs[|obs| - 1];
      ChangeLogIsDestutter(before, path);
      KindsAfter(before, o, path);
      if o.path == path {
        DestutterAfter(before, o);
      }
      assert before + [o] == obs;
    }
  }

  /** What one more observation adds to the changes of a path. */
  lemma KindsAfter(before: seq<Observation>, o: Observation, path: string)
    ensures var change, kinds := ChangeIn(LastSeen(before), o), KindsOf(Changes(before), path);
            KindsOf(Changes(before + [o]), path) ==
              if o.path == path && change.Some? then kinds + [change.value] else kinds
  {
    var change := ChangeIn(LastSeen(before), o);
    assert (before + [o])[..|before|] == before;
    if change.Some? {
      KindsAppend(Changes(before), Change(o.path, change.value, o.delivered), path);
    }
  }

  /** What it adds to the log of its own path. */
  lemma DestutterAfter(before: seq<Observation>, o: Observation)
    ensures var change, log := ChangeIn(LastSeen(before), o), LogOf(Destutter(TimesOf(before, o.path)));
            LogOf(Destutter(TimesOf(before, o.path) + [o.lastWrite])) ==
              if change.Some? then log + [change.value] else log
  {
    var times := TimesOf(before, o.path);
    LastSeenIsLastTime(before, o.path);
    DestutterNonEmpty(times);
    assert (times + [o.lastWrite])[..|times|] == times;
    LogAppend(Destutter(times), o.lastWrite);
  }

  lemma LogAppend(times: seq<int>, t: int)
    ensures LogOf(times + [t]) == LogOf(times) + [if times == [] then FileOpened else FileModified]
  {
  }

  function TraceOf(trace: seq<(string, EventType)>, path: string): seq<EventType> {
    if trace == [] then []
    else
      var rest, x := TraceOf(trace[..|trace| - 1], path), trace[|trace| - 1];
      if x.0 == path then rest + [x.1] else rest
  }

  lemma TraceAppend(trace: seq<(string, EventType)>, x: (string, EventType), path: string)
    ensures TraceOf(trace + [x], path) == if x.0 == path then TraceOf(trace, path) + [x.1] else TraceOf(trace, path)
  {
    assert (trace + [x])[..|trace|] == trace;
  }

  /** Each change of a path shows in its events if it was delivered, and not otherwise. */
  lemma {:induction false} DeliveredKinds(changes: seq<Change>, path: string)
    ensures |TraceOf(Delivered(changes), path)| <= |KindsOf(changes, path)|
    ensures TraceOf(Delivered(changes), path) == KindsOf(changes, path) <==>
            forall c | c in changes && c.path == path :: c.delivered
  {
    if changes != [] {
      var n := |changes| - 1;
      var before, c := changes[..n], changes[n];
      DeliveredKinds(before, path);
      assert changes == before + [c];
      DeliveredAppend(before, c);
      KindsAppend(before, c, path);
      if c.delivered {
        TraceAppend(Delivered(before), (c.path, c.kind), path);
        LastDiffers(TraceOf(Delivered(before), path), KindsOf(before, path), c.kind);
      }
      assert forall x :: x in changes <==> x in before || x == c;
    }
  }

  lemma LastDiffers(s: seq<EventType>, t: seq<EventType>, kind: EventType)
    ensures s + [kind] == t + [kind] <==> s == t
  {
    if s + [kind] == t + [kind] {
      assert (s + [kind])[..|s|] == s && (t + [kind])[..|t|] == t;
    }
  }

  /** The events a collector has emitted for a path are one FileOpened, then one FileModified per change
      of its write time, exactly when every change of the path was delivered: the table has moved on,
      so an event whose delivery throws is gone for good. */
  lemma EventsAreChangeLog(collector: FileSystemCollector, path: string)
    requires collector.Valid()
    ensures TraceOf(collector.emitted, path) == LogOf(Destutter(TimesOf(collector.seen, path))) <==>
            forall c | c in Changes(collector.seen) && c.path == path :: c.delivered
  {
    DeliveredKinds(Changes(collector.seen), path);
    ChangeLogIsDestutter(collector.seen, path);
  }
}
