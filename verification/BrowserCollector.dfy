/** Polling the browser history behind a watermark (browser_collector.cpp). */
module BrowserCollectors {
  import opened Base
  import opened Events
  import opened Calendar
  import opened EventStores

  // ---- timestamps ----

  /** Seconds between 1601 and 1970. */
  const EPOCH_OFFSET: int := 11_644_473_600
  const MICROS: int := 1_000_000

  function ToChrome(unixSeconds: u64): u64 {
    Wrap(Wrap(unixSeconds + EPOCH_OFFSET) * MICROS)
  }

  function ToUnix(chromeMicros: u64): u64 {
    Wrap(chromeMicros / MICROS - EPOCH_OFFSET)
  }

  /** The conversion can be undone exactly when the product does not overflow, as for every clock. */
  lemma ChromeRoundTrip(t: u64)
    ensures ToUnix(ToChrome(t)) == t <==> Wrap(t + EPOCH_OFFSET) * MICROS < U64_LIMIT
    ensures t <= 9_223_372_036 ==> ToUnix(ToChrome(t)) == t && ToChrome(t) < I64_LIMIT
  {
    var x := Wrap(t + EPOCH_OFFSET);
    var y := ToChrome(t) / MICROS;
    assert y <= U64_LIMIT / MICROS;
    assert Wrap(x - EPOCH_OFFSET) == t;
    if x * MICROS < U64_LIMIT {
      assert y == x;
    } else {
      assert ToChrome(t) < U64_LIMIT <= x * MICROS;
      assert y < x;
      assert Wrap(y - EPOCH_OFFSET) != Wrap(x - EPOCH_OFFSET) by {
        WrapApart(y - EPOCH_OFFSET, x - EPOCH_OFFSET);
      }
    }
  }

  /** 1601 lies 369 years with 89 leap days before 1970, and Chrome counts microseconds from there. */
  lemma ChromeEpoch(t: u64)
    requires t <= 9_223_372_036
    ensures ToChrome(t) == (t + (369 * 365 + 89) * 86400) * 1_000_000
    ensures ToUnix(ToChrome(t)) == t
  {
    ChromeRoundTrip(t);
  }

  lemma WrapApart(a: int, b: int)
    requires 0 < b - a < U64_LIMIT
    ensures Wrap(a) != Wrap(b)
  {
    var p, q := a / U64_LIMIT, b / U64_LIMIT;
    assert a == U64_LIMIT * p + Wrap(a) && b == U64_LIMIT * q + Wrap(b);
  }

  // ---- one poll ----

  type i64 = x: int | -0x8000_0000_0000_0000 <= x < 0x8000_0000_0000_0000

  /** A row of `visits` joined with its URL. A NULL column reads as no text. */
  datatype Visit = Visit(key: nat, time: i64, url: Option<string>, title: Option<string>)

  function UrlText(v: Visit): string {
    if v.url.Some? then v.url.value else ""
  }

  function TitleText(v: Visit): string {
    var title := if v.title.Some? then v.title.value else UrlText(v);
    if title == "" || title == UrlText(v) then "Visited: " + UrlText(v) else title
  }

  function VisitEvent(v: Visit): ActivityEvent
    requires v.time >= 0
  {
    ActivityEvent(0, ToUnix(v.time), BrowserVisit, "chrome.exe", TitleText(v), map["url" := UrlText(v)])
  }

  /** What the event of a visit says: the page's title, or "Visited: " and the address when there is no
      title worth showing. */
  lemma VisitTexts(v: Visit, url: string)
    requires v.time >= 0 && (v.url == Some(url) || (v.url == None && url == ""))
    ensures var e := VisitEvent(v);
            && e.kind == BrowserVisit && e.source == "chrome.exe" && e.metadata == map["url" := url]
            && e.timestamp == v.time / 1_000_000 - 11_644_473_600 +
                              (if v.time < 11_644_473_600_000_000 then 0x1_0000_0000_0000_0000 else 0)
            && e.content == if v.title == None || v.title == Some("") || v.title == Some(url) then "Visited: " + url
                            else v.title.value
  {
  }

  ghost predicate Ascending(rows: seq<Visit>) {
    forall i, j | 0 <= i < j < |rows| :: rows[i].time <= rows[j].time
  }

  /** `rows` is a result of the query: the visits later than the watermark, oldest first. Visits of
      the same time come in any order. */
  ghost predicate IsQueryResult(rows: seq<Visit>, history: set<Visit>, watermark: u64) {
    && NoDuplicates(rows) && Ascending(rows)
    && forall v :: v in rows <==> v in history && v.time > Signed(watermark)
  }

  function WatermarkAfter(watermark: u64, read: seq<Visit>): u64
    requires forall v | v in read :: v.time >= 0
  {
    if read == [] then watermark else var last := read[|read| - 1]; assert last in read; last.time
  }

  /** Reading one more row moves the highest time seen to that row's time. */
  lemma NextRead(watermark: u64, rows: seq<Visit>, history: set<Visit>, i: nat)
    requires watermark < I64_LIMIT && IsQueryResult(rows, history, watermark) && i < |rows|
    ensures forall v | v in rows :: v.time > watermark
    ensures WatermarkAfter(watermark, rows[..i]) <= rows[i].time
    ensures WatermarkAfter(watermark, rows[..i + 1]) == rows[i].time
  {
    forall v | v in rows ensures v.time > watermark {
    }
    assert rows[i] in rows;
    assert rows[..i + 1][i] == rows[i];
    assert i > 0 ==> rows[..i][i - 1] == rows[i - 1] && rows[i - 1].time <= rows[i].time;
  }

  class BrowserCollector {
    var lastVisitTime: u64

    constructor (now: Clock)
      ensures lastVisitTime == ToChrome(now) && lastVisitTime < I64_LIMIT
    {
      ChromeRoundTrip(now);
      lastVisitTime := ToChrome(now);
    }

    /** `rows` is `None` when the poll fails before the query runs; otherwise the first `read` rows
        arrive before the result ends or breaks off. */
    method ProcessHistory(ghost history: set<Visit>, rows: Option<seq<Visit>>, read: nat)
      returns (events: seq<ActivityEvent>)
      requires lastVisitTime < I64_LIMIT
      requires rows.Some? ==> read <= |rows.value| && IsQueryResult(rows.value, history, lastVisitTime)
      modifies this
      ensures lastVisitTime < I64_LIMIT
      ensures rows == None ==> events == [] && lastVisitTime == old(lastVisitTime)
      ensures rows.Some? ==> lastVisitTime == WatermarkAfter(old(lastVisitTime), rows.value[..read])
      ensures rows.Some? ==> |events| == read && forall i | 0 <= i < read :: events[i] == VisitEvent(rows.value[i])
    {
      events := [];
      if rows == None {
        return;
      }
      var maxTimeSeen: u64 := lastVisitTime;
      for i := 0 to read
        invariant |events| == i && lastVisitTime == old(lastVisitTime)
        invariant forall k | 0 <= k < i :: events[k] == VisitEvent(rows.value[k])
        invariant maxTimeSeen == WatermarkAfter(lastVisitTime, rows.value[..i])
      {
        NextRead(lastVisitTime, rows.value, history, i);
        var visitTime: u64 := rows.value[i].time;
        if visitTime > maxTimeSeen {
          maxTimeSeen := visitTime;
        }
        var event := ReadRow(rows.value[i]);
        events := events + [event];
      }
      lastVisitTime := maxTimeSeen;
    }

    /** The event of one row. */
    method ReadRow(v: Visit) returns (event: ActivityEvent)
      requires v.time >= 0
      ensures event == VisitEvent(v)
    {
      var url := if v.url.Some? then v.url.value else "";
      var title := if v.title.Some? then v.title.value else url;
      if title == "" || title == url {
        title := "Visited: " + url;
      }
      event := ActivityEvent(0, ToUnix(v.time), BrowserVisit, "chrome.exe", title, map["url" := url]);
    }
  }

  // ---- runs of polls ----

  datatype Poll = Failed | Poll(history: set<Visit>, rows: seq<Visit>, read: nat)

  datatype State = State(watermark: u64, emitted: seq<Visit>)

  ghost predicate Possible(s: State, p: Poll) {
    p.Poll? ==> p.read <= |p.rows| && IsQueryResult(p.rows, p.history, s.watermark)
  }

  ghost function After(s: State, p: Poll): State
    requires s.watermark < I64_LIMIT && Possible(s, p)
  {
    if p.Failed? then s
    else State(WatermarkAfter(s.watermark, p.rows[..p.read]), s.emitted + p.rows[..p.read])
  }

  lemma WatermarkGrows(s: State, p: Poll)
    requires s.watermark < I64_LIMIT && Possible(s, p)
    ensures s.watermark <= After(s, p).watermark < I64_LIMIT
    ensures p.Poll? && p.read > 0 ==> s.watermark < After(s, p).watermark == p.rows[p.read - 1].time
  {
    if p.Poll? && p.read > 0 {
      assert p.rows[p.read - 1] in p.rows;
    }
  }

  ghost predicate Run(s: State, polls: seq<Poll>, s': State)
    decreases |polls|
  {
    if polls == [] then s' == s
    else s.watermark < I64_LIMIT && Possible(s, polls[0]) && Run(After(s, polls[0]), polls[1..], s')
  }

  /** What has been emitted is in order of time, without repetition, and not beyond the watermark. */
  ghost predicate Tidy(s: State, start: u64) {
    && s.watermark < I64_LIMIT && start <= s.watermark
    && NoDuplicates(s.emitted) && Ascending(s.emitted)
    && forall v | v in s.emitted :: start < v.time <= s.watermark
  }

  lemma PollKeepsTidy(s: State, p: Poll, start: u64)
    requires Tidy(s, start) && Possible(s, p)
    ensures Tidy(After(s, p), start)
  {
    WatermarkGrows(s, p);
    if p.Poll? {
      var fresh', s' := p.rows[..p.read], After(s, p);
      forall v | v in fresh' ensures s.watermark < v.time <= s'.watermark {
        assert v in p.rows;
      }
    }
  }

  lemma {:induction false} RunKeepsTidy(s: State, polls: seq<Poll>, s': State, start: u64)
    requires Tidy(s, start) && Run(s, polls, s')
    ensures Tidy(s', start) && s.watermark <= s'.watermark && s.emitted <= s'.emitted
    ensures forall v | v in s'.emitted && v !in s.emitted :: v.time > s.watermark
    decreases |polls|
  {
    if polls != [] {
      PollKeepsTidy(s, polls[0], start);
      WatermarkGrows(s, polls[0]);
      var next := After(s, polls[0]);
      RunKeepsTidy(next, polls[1..], s', start);
      forall v | v in s'.emitted && v !in s.emitted ensures v.time > s.watermark {
        if v in next.emitted {
          assert v in polls[0].rows;
        }
      }
    }
  }

  /** Over any polls, failed, broken off or complete, on any histories: no visit is emitted twice,
      and emissions are in order of time. */
  lemma EmittedOnceInOrder(start: u64, polls: seq<Poll>, s: State)
    requires start < I64_LIMIT && Run(State(start, []), polls, s)
    ensures NoDuplicates(s.emitted) && Ascending(s.emitted)
    ensures forall v | v in s.emitted :: start < v.time <= s.watermark
  {
    RunKeepsTidy(State(start, []), polls, s, start);
  }

  // ---- when nothing is lost ----

  /** No two visits of the history later than `start` have the same time. */
  ghost predicate DistinctTimes(history: set<Visit>, start: u64) {
    forall v, v' | v in history && v' in history && v.time == v'.time > start :: v == v'
  }

  /** The history a poll finds, after one that held `seen`: what is later than `start` has distinct
      times, none of it has gone, and what is new of it is later than the watermark. What is not later
      than `start` may come and go. */
  ghost predicate GrowsFrom(seen: set<Visit>, history: set<Visit>, watermark: u64, start: u64) {
    && DistinctTimes(history, start)
    && (forall v | v in seen && v.time > start :: v in history)
    && (forall v | v in history && v !in seen && v.time > start :: v.time > watermark)
  }

  /** The polls lead from `s` to `s'`, and the histories they find grow from `seen` to `seen'`. */
  ghost predicate OrderlyRun(s: State, seen: set<Visit>, polls: seq<Poll>, s': State, seen': set<Visit>, start: u64)
    decreases |polls|
  {
    if polls == [] then s' == s && seen' == seen
    else
      && s.watermark < I64_LIMIT && Possible(s, polls[0])
      && if polls[0].Failed? then OrderlyRun(s, seen, polls[1..], s', seen', start)
         else
           && GrowsFrom(seen, polls[0].history, s.watermark, start)
           && OrderlyRun(After(s, polls[0]), polls[0].history, polls[1..], s', seen', start)
  }

  /** The watermark separates what has been emitted from what has not. */
  ghost predicate UpToWatermark(s: State, start: u64, seen: set<Visit>) {
    && (forall v | v in s.emitted :: v in seen)
    && (forall v | v in seen && v.time > start :: v in s.emitted <==> v.time <= s.watermark)
  }

  lemma PollReachesWatermark(s: State, p: Poll, start: u64, seen: set<Visit>)
    requires Tidy(s, start) && UpToWatermark(s, start, seen) && Possible(s, p) && p.Poll?
    requires GrowsFrom(seen, p.history, s.watermark, start)
    ensures UpToWatermark(After(s, p), start, p.history)
    ensures p.read == |p.rows| ==> forall v | v in p.history && v.time > start :: v in After(s, p).emitted
  {
    var s' := After(s, p);
    WatermarkGrows(s, p);
    forall v | v in p.history && v.time > start ensures v in s'.emitted <==> v.time <= s'.watermark {
      if v.time > s.watermark {
        assert v in p.rows;
        var i :| 0 <= i < |p.rows| && p.rows[i] == v;
        if i < p.read {
          assert p.rows[..p.read][i] == v;
        } else {
          assert v !in p.rows[..p.read] && v !in s.emitted;
          assert p.read > 0 ==> p.rows[p.read - 1] in p.rows && p.rows[p.read - 1] != v;
        }
      }
    }
    forall v | v in s'.emitted ensures v in p.history {
      assert v in s.emitted || v in p.rows;
    }
    if p.read == |p.rows| {
      assert p.rows[..p.read] == p.rows;
      forall v | v in p.history && v.time > start ensures v in s'.emitted {
        assert v.time > s.watermark ==> v in p.rows;
      }
    }
  }

  lemma {:induction false} OrderlyRunInv(s: State, seen: set<Visit>, polls: seq<Poll>, s': State,
                                         seen': set<Visit>, start: u64)
    requires Tidy(s, start) && UpToWatermark(s, start, seen) && OrderlyRun(s, seen, polls, s', seen', start)
    ensures Tidy(s', start) && UpToWatermark(s', start, seen')
    decreases |polls|
  {
    if polls != [] {
      var p := polls[0];
      PollKeepsTidy(s, p, start);
      if p.Poll? {
        PollReachesWatermark(s, p, start, seen);
        OrderlyRunInv(After(s, p), p.history, polls[1..], s', seen', start);
      } else {
        OrderlyRunInv(s, seen, polls[1..], s', seen', start);
      }
    }
  }

  /** `all` lists the visits of the history later than `start`, oldest first. */
  ghost predicate ListsNew(all: seq<Visit>, history: set<Visit>, start: u64) {
    NoDuplicates(all) && Ascending(all) && forall v :: v in all <==> v in history && v.time > start
  }

  /** Whatever history the collector starts with, and whatever fails or breaks off: if the visits since
      then have distinct times and arrive in order, what has been emitted is a prefix of them. */
  lemma EmittedIsPrefix(start: u64, before: set<Visit>, polls: seq<Poll>, s: State, history: set<Visit>,
                        all: seq<Visit>)
    requires start < I64_LIMIT && OrderlyRun(State(start, []), before, polls, s, history, start)
    requires ListsNew(all, history, start) && DistinctTimes(history, start)
    ensures s.emitted <= all
  {
    OrderlyRunInv(State(start, []), before, polls, s, history, start);
    StrictTimes(s.emitted, history, start);
    StrictTimes(all, history, start);
    PrefixByTime(s.emitted, all, s.watermark);
  }

  /** A complete poll at the end of such a run has emitted every new visit. */
  lemma CompletePollCatchesUp(start: u64, before: set<Visit>, polls: seq<Poll>, s: State, seen: set<Visit>, p: Poll)
    requires start < I64_LIMIT && OrderlyRun(State(start, []), before, polls, s, seen, start)
    requires p.Poll? && p.read == |p.rows| && s.watermark < I64_LIMIT && Possible(s, p)
    requires GrowsFrom(seen, p.history, s.watermark, start)
    ensures forall v :: v in After(s, p).emitted <==> v in p.history && v.time > start
  {
    OrderlyRunInv(State(start, []), before, polls, s, seen, start);
    PollKeepsTidy(s, p, start);
    PollReachesWatermark(s, p, start, seen);
  }

  /** The same polls on histories that also hold the visits `older`. */
  ghost function WithOlder(polls: seq<Poll>, older: set<Visit>): seq<Poll> {
    seq(|polls|, i requires 0 <= i < |polls| =>
      if polls[i].Failed? then Failed else polls[i].(history := polls[i].history + older))
  }

  /** Visits from before the start stand in nobody's way: any of them may be in every history, and the
      run is as orderly as without them and emits the same. */
  lemma {:induction false} OlderVisitsDoNotMatter(s: State, seen: set<Visit>, polls: seq<Poll>, s': State,
                                                  seen': set<Visit>, start: u64, older: set<Visit>)
    requires start <= s.watermark && OrderlyRun(s, seen, polls, s', seen', start)
    requires forall v | v in older :: v.time <= start
    ensures OrderlyRun(s, seen + older, WithOlder(polls, older), s', seen' + older, start)
    decreases |polls|
  {
    if polls != [] {
      var p, wide := polls[0], WithOlder(polls, older);
      assert wide[1..] == WithOlder(polls[1..], older);
      if p.Poll? {
        WatermarkGrows(s, p);
        OlderVisitsDoNotMatter(After(s, p), p.history, polls[1..], s', seen', start, older);
        assert After(s, wide[0]) == After(s, p);
      } else {
        OlderVisitsDoNotMatter(s, seen, polls[1..], s', seen', start, older);
      }
    }
  }

  /** The theorems above apply to every run over a history that stays as it is, with years of older
      visits in it or without. */
  lemma {:induction false} StillHistoryIsOrderly(s: State, polls: seq<Poll>, s': State, history: set<Visit>, start: u64)
    requires Run(s, polls, s') && DistinctTimes(history, start)
    requires forall p | p in polls && p.Poll? :: p.history == history
    ensures OrderlyRun(s, history, polls, s', history, start)
    decreases |polls|
  {
    if polls != [] {
      assert polls[0] in polls;
      StillHistoryIsOrderly(After(s, polls[0]), polls[1..], s', history, start);
    }
  }

  ghost predicate Strict(rows: seq<Visit>) {
    forall i, j | 0 <= i < j < |rows| :: rows[i].time < rows[j].time
  }

  lemma {:induction false} PrefixByTime(part: seq<Visit>, all: seq<Visit>, limit: u64)
    requires Strict(part) && Strict(all)
    requires forall v | v in all :: v in part <==> v.time <= limit
    requires forall v | v in part :: v in all
    ensures part <= all
    decreases |part|
  {
    if part != [] {
      SameFirst(part, all, limit);
      var part', all' := part[1..], all[1..];
      assert part == [part[0]] + part' && all == [all[0]] + all';
      RestStrict(part);
      RestStrict(all);
      PrefixByTime(part', all', limit);
    }
  }

  lemma RestStrict(rows: seq<Visit>)
    requires rows != [] && Strict(rows)
    ensures Strict(rows[1..])
    ensures forall v :: v in rows[1..] <==> v in rows && v != rows[0]
  {
    assert forall v :: v in rows <==> v == rows[0] || v in rows[1..];
  }

  lemma SameFirst(part: seq<Visit>, all: seq<Visit>, limit: u64)
    requires Strict(part) && Strict(all) && part != []
    requires forall v | v in all :: v in part <==> v.time <= limit
    requires forall v | v in part :: v in all
    ensures all != [] && part[0] == all[0]
  {
    assert part[0] in part;
    var i :| 0 <= i < |all| && all[i] == part[0];
    assert all[0] in all && all[0].time <= part[0].time <= limit;
    var j :| 0 <= j < |part| && part[j] == all[0];
  }

  lemma StrictTimes(rows: seq<Visit>, history: set<Visit>, start: u64)
    requires NoDuplicates(rows) && Ascending(rows) && DistinctTimes(history, start)
    requires forall v | v in rows :: v in history && v.time > start
    ensures Strict(rows)
  {
    forall i, j | 0 <= i < j < |rows| ensures rows[i].time < rows[j].time {
      assert rows[i] in rows && rows[j] in rows;
    }
  }

  // ---- what a broken-off poll loses ----

  /** After a poll that broke off behind row `read - 1`, an unread row is never emitted by any later
      polls exactly when it has the same time as the last row read. */
  lemma LostIffTied(s: State, p: Poll, start: u64, j: nat)
    requires Tidy(s, start) && p.Poll? && Possible(s, p) && 0 < p.read <= j < |p.rows|
    ensures p.rows[j].time == p.rows[p.read - 1].time <==>
            forall polls, s' | Run(After(s, p), polls, s') :: p.rows[j] !in s'.emitted
  {
    var v, s1 := p.rows[j], After(s, p);
    PollKeepsTidy(s, p, start);
    WatermarkGrows(s, p);
    assert v in p.rows;
    assert v !in s1.emitted by {
      assert v in s.emitted ==> v.time <= s.watermark;
      assert forall i | 0 <= i < p.read :: p.rows[i] != v;
    }
    if v.time == p.rows[p.read - 1].time {
      forall polls, s' | Run(s1, polls, s') ensures v !in s'.emitted {
        RunKeepsTidy(s1, polls, s', start);
      }
    } else {
      UntiedCanBeEmitted(s, p, j);
      var polls, s2 :| Run(s1, polls, s2) && v in s2.emitted;
    }
  }

  /** Two visits of the same time, and a poll that breaks off between them: the second is never emitted. */
  lemma TiedVisitIsLost(start: u64, v: Visit, w: Visit)
    requires start < I64_LIMIT && v != w && v.time == w.time > start
    ensures var s, p := State(start, []), Poll({v, w}, [v, w], 1);
            && Possible(s, p) && After(s, p).emitted == [v]
            && forall polls, s' | Run(After(s, p), polls, s') :: w !in s'.emitted
  {
    var s, p := State(start, []), Poll({v, w}, [v, w], 1);
    assert Possible(s, p);
    assert p.rows[1] == w && p.rows[..1] == [v];
    LostIffTied(s, p, start, 1);
  }

  /** A later row is still above the new watermark: the next complete poll emits it. */
  lemma UntiedCanBeEmitted(s: State, p: Poll, j: nat)
    requires s.watermark < I64_LIMIT && p.Poll? && Possible(s, p) && 0 < p.read <= j < |p.rows|
    requires p.rows[j].time != p.rows[p.read - 1].time
    ensures exists polls, s' :: Run(After(s, p), polls, s') && p.rows[j] in s'.emitted
  {
    var s1 := After(s, p);
    WatermarkGrows(s, p);
    var m := p.read;
    while p.rows[m].time == p.rows[p.read - 1].time
      invariant p.read <= m <= j
      invariant forall i | p.read <= i < m :: p.rows[i].time == p.rows[p.read - 1].time
      decreases j - m
    {
      m := m + 1;
    }
    RestIsQueryResult(s, p, m);
    var rest := Poll(p.history, p.rows[m..], |p.rows| - m);
    assert Possible(s1, rest);
    var s2 := After(s1, rest);
    assert rest.rows[..rest.read] == p.rows[m..];
    assert p.rows[m..][j - m] == p.rows[j];
    var polls := [rest];
    assert polls[1..] == [];
    assert Run(s2, [], s2);
    assert Run(s1, polls, s2);
    assert p.rows[j] in s2.emitted;
  }

  lemma RestIsQueryResult(s: State, p: Poll, m: nat)
    requires s.watermark < I64_LIMIT && p.Poll? && Possible(s, p) && 0 < p.read <= m < |p.rows|
    requires forall i | p.read <= i < m :: p.rows[i].time == p.rows[p.read - 1].time
    requires p.rows[m].time != p.rows[p.read - 1].time
    ensures IsQueryResult(p.rows[m..], p.history, After(s, p).watermark)
  {
    WatermarkGrows(s, p);
    var w := After(s, p).watermark;
    assert p.rows[m].time > w;
    forall i | 0 <= i < |p.rows| ensures p.rows[i].time > w <==> i >= m {
      assert i < p.read - 1 ==> p.rows[i].time <= p.rows[p.read - 1].time;
      assert i > m ==> p.rows[m].time <= p.rows[i].time;
    }
    RestSelects(p.rows, p.history, s.watermark, w, m);
  }

  /** The rows from `m` on are those later than `w`. */
  lemma RestSelects(rows: seq<Visit>, history: set<Visit>, watermark: u64, w: u64, m: nat)
    requires watermark <= w < I64_LIMIT && IsQueryResult(rows, history, watermark) && m <= |rows|
    requires forall i | 0 <= i < |rows| :: rows[i].time > w <==> i >= m
    ensures IsQueryResult(rows[m..], history, w)
  {
    forall v | v in rows[m..] ensures v in history && v.time > w {
      assert v in rows;
    }
    forall v | v in history && v.time > w ensures v in rows[m..] {
      assert v in rows;
      var i :| 0 <= i < |rows| && rows[i] == v;
      assert rows[m..][i - m] == v;
    }
  }
}
