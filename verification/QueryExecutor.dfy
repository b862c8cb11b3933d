/** The query executor (query_executor.cpp). */
module QueryExecutors {
  import opened Base
  import opened Text
  import opened Events
  import opened EventStores
  import opened InvertedIndexes
  import opened Calendar
  import opened QueryParsers
  import Sorting

  predicate WantsIndex(plan: QueryPlan) {
    plan.useKeywordIndex || plan.useTimeIndex || plan.useAppIndex
  }

  /** The id passes every index constraint of the plan, over an index of `indexed`. */
  ghost predicate Admitted(indexed: set<ActivityEvent>, plan: QueryPlan, id: u64) {
    && (plan.useKeywordIndex ==> exists k | k in plan.keywords :: id in KeywordScan(indexed, k))
    && (plan.useTimeIndex ==> id in HourScan(indexed, plan.timeStart, plan.timeEnd))
    && (plan.useAppIndex ==> id in AppScan(indexed, plan.appFilter))
  }

  predicate TypeAccepted(plan: QueryPlan, e: ActivityEvent) {
    plan.useTypeFilter ==> e.kind == plan.typeFilter
  }

  predicate IsRow(rows: map<u64, ActivityEvent>, e: ActivityEvent) {
    e.id in rows && rows[e.id] == e
  }

  /** The stored events that the plan's index constraints and type filter accept, newest first. */
  ghost predicate IsIndexedAnswer(rows: map<u64, ActivityEvent>, indexed: set<ActivityEvent>, plan: QueryPlan,
                                  results: seq<ActivityEvent>) {
    && NoDuplicates(results) && NewestFirst(results)
    && forall e :: e in results <==> IsRow(rows, e) && Admitted(indexed, plan, e.id) && TypeAccepted(plan, e)
  }

  /** All stored events of the plan's type, newest first. */
  ghost predicate IsTypeAnswer(rows: map<u64, ActivityEvent>, plan: QueryPlan, results: seq<ActivityEvent>) {
    && NoDuplicates(results) && NewestFirst(results)
    && forall e :: e in results <==> IsRow(rows, e) && e.kind == plan.typeFilter
  }

  /** At most a hundred events dated up to now; one left out is not newer than any returned. */
  ghost predicate IsRecentAnswer(rows: map<u64, ActivityEvent>, now: Clock, results: seq<ActivityEvent>) {
    && NoDuplicates(results) && NewestFirst(results) && |results| <= 100
    && (forall e | e in results :: IsRow(rows, e) && e.timestamp <= now)
    && (forall e | IsRow(rows, e) && e.timestamp <= now && e !in results ::
          |results| == 100 && forall r | r in results :: e.timestamp <= r.timestamp)
  }

  predicate NotLarger(a: set<u64>, b: set<u64>) {
    |a| <= |b|
  }

  ghost predicate InAll(sets: seq<set<u64>>, id: u64) {
    forall c | c in sets :: id in c
  }

  lemma InAllAppend(sets: seq<set<u64>>, c: set<u64>, id: u64)
    ensures InAll(sets + [c], id) <==> InAll(sets, id) && id in c
  {
    assert forall x :: x in sets + [c] <==> x in sets || x == c;
  }

  /** `std::sort` by timestamp, newest first, keeps a selection what it is. */
  method SortNewestFirst(rows: map<u64, ActivityEvent>, ghost p: ActivityEvent -> bool, events: seq<ActivityEvent>)
    returns (r: seq<ActivityEvent>)
    requires Selects(rows, p, events)
    ensures Selects(rows, p, r) && NewestFirst(r)
  {
    r := Sorting.StdSort(events, NotEarlier);
    SelectsPermuted(rows, p, events, r);
    forall i, j | 0 <= i < j < |r| ensures r[i].timestamp >= r[j].timestamp {
      assert NotEarlier(r[i], r[j]);
    }
  }

  /** Smallest set first, then one intersection after another. The order does not matter. */
  method IntersectAll(candidates: seq<set<u64>>) returns (ids: set<u64>)
    requires candidates != []
    ensures forall id :: id in ids <==> InAll(candidates, id)
  {
    var sets := Sorting.StdSort(candidates, NotLarger);
    Sorting.SameElements(sets, candidates);
    ids := sets[0];
    for i := 1 to |sets|
      invariant forall id :: id in ids <==> InAll(sets[..i], id)
    {
      var intersection: set<u64> := {};
      var todo := ids;
      while todo != {}
        invariant todo <= ids
        invariant intersection == set id | id in ids && id !in todo && id in sets[i]
      {
        var id :| id in todo;
        if id in sets[i] {
          intersection := intersection + {id};
        }
        todo := todo - {id};
      }
      assert forall c :: c in sets[..i + 1] <==> c in sets[..i] || c == sets[i];
      ids := intersection;
    }
    assert sets[..|sets|] == sets;
  }

  /** One more candidate set stands for one more constraint. */
  lemma Narrow(indexed: set<ActivityEvent>, sets: seq<set<u64>>, plan: QueryPlan, c: set<u64>, narrower: QueryPlan)
    requires forall id :: InAll(sets, id) <==> Admitted(indexed, plan, id)
    requires forall id :: Admitted(indexed, narrower, id) <==> Admitted(indexed, plan, id) && id in c
    ensures forall id :: InAll(sets + [c], id) <==> Admitted(indexed, narrower, id)
  {
    forall id ensures InAll(sets + [c], id) <==> Admitted(indexed, narrower, id) {
      InAllAppend(sets, c, id);
    }
  }

  class QueryExecutor {
    const storage: EventStore?
    const index: InvertedIndex?

    constructor (storage: EventStore?, index: InvertedIndex?)
      ensures this.storage == storage && this.index == index
    {
      this.storage, this.index := storage, index;
    }

    ghost predicate Valid()
      reads this, storage, index
    {
      && (storage != null ==> storage.Valid())
      && (index != null ==> index.Valid())
    }

    /** One candidate set for each index the plan uses. */
    method Candidates(plan: QueryPlan) returns (sets: seq<set<u64>>)
      requires Valid()
      ensures sets == [] <==> index == null || !WantsIndex(plan)
      ensures sets != [] ==> forall id :: InAll(sets, id) <==> Admitted(index.indexed, plan, id)
    {
      sets := [];
      if index == null {
        return;
      }
      ghost var none := plan.(useKeywordIndex := false, useTimeIndex := false, useAppIndex := false);
      ghost var byKeyword := none.(useKeywordIndex := plan.useKeywordIndex);
      ghost var byTime := byKeyword.(useTimeIndex := plan.useTimeIndex);
      if plan.useKeywordIndex {
        var ids: set<u64> := {};
        for i := 0 to |plan.keywords|
          invariant forall id ::
                      id in ids <==> exists k | k in plan.keywords[..i] :: id in KeywordScan(index.indexed, k)
        {
          var found := index.SearchKeyword(plan.keywords[i]);
          assert forall k :: k in plan.keywords[..i + 1] <==> k in plan.keywords[..i] || k == plan.keywords[i];
          ids := ids + found;
        }
        assert plan.keywords[..|plan.keywords|] == plan.keywords;
        Narrow(index.indexed, sets, none, ids, byKeyword);
        sets := sets + [ids];
      }
      if plan.useTimeIndex {
        var ids := index.SearchTimeRange(plan.timeStart, plan.timeEnd);
        Narrow(index.indexed, sets, byKeyword, ids, byTime);
        sets := sets + [ids];
      }
      if plan.useAppIndex {
        var ids := index.SearchApplication(plan.appFilter);
        Narrow(index.indexed, sets, byTime, ids, plan);
        sets := sets + [ids];
      }
    }

    /** Looks the ids up in whatever order they come, and drops other types. */
    method Fetch(ids: set<u64>, plan: QueryPlan) returns (results: seq<ActivityEvent>)
      requires Valid() && (storage == null ==> ids == {})
      ensures storage == null ==> results == []
      ensures storage != null ==>
                Selects(storage.rows, (e: ActivityEvent) => e.id in ids && TypeAccepted(plan, e), results)
    {
      results := [];
      var todo := ids;
      while todo != {}
        invariant todo <= ids && NoDuplicates(results)
        invariant storage == null ==> results == []
        invariant storage != null ==> forall e :: e in results <==>
                    IsRow(storage.rows, e) && e.id in ids && e.id !in todo && TypeAccepted(plan, e)
      {
        var id :| id in todo;
        todo := todo - {id};
        var found := storage.FindById(id);
        if found.Some? && !(plan.useTypeFilter && found.value.kind != plan.typeFilter) {
          results := results + [found.value];
        }
      }
    }

    /** The source dereferences the storage once the index has delivered an id. */
    method Execute(plan: QueryPlan, now: Clock) returns (results: seq<ActivityEvent>)
      requires Valid()
      requires storage == null && index != null && WantsIndex(plan) ==> forall id :: !Admitted(index.indexed, plan, id)
      ensures storage != null && index != null && WantsIndex(plan) ==>
                IsIndexedAnswer(storage.rows, index.indexed, plan, results)
      ensures storage != null && (index == null || !WantsIndex(plan)) && plan.useTypeFilter ==>
                IsTypeAnswer(storage.rows, plan, results)
      ensures storage != null && (index == null || !WantsIndex(plan)) && !plan.useTypeFilter ==>
                IsRecentAnswer(storage.rows, now, results)
      ensures storage == null ==> results == []
    {
      var candidates := Candidates(plan);
      if candidates == [] {
        if storage == null {
          return [];
        }
        if plan.useTypeFilter {
          results := storage.FindByType(plan.typeFilter);
          results := SortNewestFirst(storage.rows, (e: ActivityEvent) => e.kind == plan.typeFilter, results);
          return;
        }
        results := storage.FindByTimeRange(0, now);
        results := SortNewestFirst(storage.rows, (e: ActivityEvent) => DatedWithin(e, 0, now), results);
        DatedUpTo(now);
        if |results| > 100 {
          results := results[..100];
        }
        return;
      }
      var ids := IntersectAll(candidates);
      results := Fetch(ids, plan);
      if storage != null {
        results := SortNewestFirst(storage.rows, (e: ActivityEvent) => e.id in ids && TypeAccepted(plan, e), results);
      }
    }

    /** Parser, planner and executor in turn. */
    method Search(query: string, now: Clock) returns (results: seq<ActivityEvent>)
      requires Valid()
      requires storage == null && index != null && WantsIndex(PlanFor(query, now)) ==>
                 forall id :: !Admitted(index.indexed, PlanFor(query, now), id)
      ensures storage != null && index != null && WantsIndex(PlanFor(query, now)) ==>
                IsIndexedAnswer(storage.rows, index.indexed, PlanFor(query, now), results)
      ensures storage != null && index != null && WantsIndex(PlanFor(query, now)) &&
              IndexAgrees(storage.rows, index.indexed) ==>
                && (Exact(query, now) ==>
                      forall e :: e in results <==> e in index.indexed && NaiveMatch(e, query, now))
                && (EndsNow(query, now) ==> IsHourLateAnswer(index.indexed, query, now, results))
      ensures storage != null && (index == null || !WantsIndex(PlanFor(query, now))) ==>
                QueryType(Lower(query)).Some? ==> IsTypeAnswer(storage.rows, PlanFor(query, now), results)
      ensures storage != null && (index == null || !WantsIndex(PlanFor(query, now))) ==>
                QueryType(Lower(query)) == None ==> IsRecentAnswer(storage.rows, now, results)
      ensures storage == null ==> results == []
    {
      var spec := Parse(query, now);
      var plan := MakePlan(spec);
      assert plan == PlanFor(query, now);
      results := Execute(plan, now);
      if storage != null && index != null && WantsIndex(plan) && IndexAgrees(storage.rows, index.indexed) {
        SearchIsScan(storage.rows, index.indexed, query, now, results);
      }
    }
  }

  // ---- the answer is a scan ----

  /** Every indexed event is a stored row, under its id. */
  ghost predicate IndexAgrees(rows: map<u64, ActivityEvent>, indexed: set<ActivityEvent>) {
    forall e | e in indexed :: IsRow(rows, e)
  }

  /** What one event must satisfy: any keyword, the hour range, the application and the type. */
  predicate PlanMatches(e: ActivityEvent, plan: QueryPlan) {
    && (plan.useKeywordIndex ==> exists k | k in plan.keywords :: MatchesKeyword(e, k))
    && (plan.useTimeIndex ==> MatchesHours(e, plan.timeStart, plan.timeEnd))
    && (plan.useAppIndex ==> MatchesApp(e, plan.appFilter))
    && TypeAccepted(plan, e)
  }

  /** Over an index that agrees with the store, candidate sets and intersections amount to testing
      the indexed events one by one. */
  lemma ExecutorRefinesScan(rows: map<u64, ActivityEvent>, indexed: set<ActivityEvent>, plan: QueryPlan,
                            results: seq<ActivityEvent>)
    requires IsIndexedAnswer(rows, indexed, plan, results)
    requires IndexAgrees(rows, indexed) && WantsIndex(plan)
    ensures forall e :: e in results <==> e in indexed && PlanMatches(e, plan)
  {
    forall e ensures e in results <==> e in indexed && PlanMatches(e, plan) {
      if IsRow(rows, e) {
        AdmittedRow(rows, indexed, plan, e);
      }
    }
  }

  lemma AdmittedRow(rows: map<u64, ActivityEvent>, indexed: set<ActivityEvent>, plan: QueryPlan, e: ActivityEvent)
    requires IndexAgrees(rows, indexed) && IsRow(rows, e) && WantsIndex(plan)
    ensures Admitted(indexed, plan, e.id) && TypeAccepted(plan, e) <==> e in indexed && PlanMatches(e, plan)
  {
    assert forall x | x in indexed && x.id == e.id :: x == e;
    forall k ensures e.id in KeywordScan(indexed, k) <==> e in indexed && MatchesKeyword(e, k) {
    }
  }

  /** The scan a reader has in mind: any keyword, the exact window, the type. */
  predicate NaiveMatch(e: ActivityEvent, query: string, now: Clock) {
    var lower := Lower(query);
    var w := QueryWindow(lower, now);
    && MatchesQueryWords(e, lower)
    && (w.Some? ==> w.value.start <= e.timestamp <= w.value.end)
  }

  predicate MatchesQueryWords(e: ActivityEvent, lower: string) {
    && (QueryKeywords(lower) != [] ==> exists k | k in QueryKeywords(lower) :: MatchesKeyword(e, k))
    && (QueryType(lower).Some? ==> e.kind == QueryType(lower).value)
  }

  /** "this week" without work hours. */
  predicate EndsNow(query: string, now: Clock) {
    var lower := Lower(query);
    PhraseOf(lower) == ThisWeek && !MentionsWork(lower) && NoUnderflow(ThisWeek, now)
  }

  /** The hours of the window hold exactly its seconds: full hours, or, when the window runs backwards,
      no hour at all. */
  predicate FullHours(w: Window) {
    if w.start <= w.end then w.start % 3600 == 0 && ((w.end + 1) % 3600 == 0 || w.end == U64_LIMIT - 1)
    else Hour(w.start) > Hour(w.end)
  }

  /** The query has no window, or one of full hours. */
  predicate Exact(query: string, now: Clock) {
    var w := QueryWindow(Lower(query), now);
    w.Some? ==> FullHours(w.value)
  }

  /** Everything the scan finds, and nothing else but matching events of the hour that is running. */
  ghost predicate IsHourLateAnswer(indexed: set<ActivityEvent>, query: string, now: Clock,
                                   results: seq<ActivityEvent>) {
    && (forall e | e in indexed && NaiveMatch(e, query, now) :: e in results)
    && (forall e | e in results ::
          e in indexed && MatchesQueryWords(e, Lower(query)) &&
          (NaiveMatch(e, query, now) || IsHourLate(e, now)))
  }

  lemma PhraseValid(query: string)
    ensures ValidPhrase(PhraseOf(query))
  {
    NamedDayValid(query, 0);
  }

  /** For every clock late enough, all windows are exact but that of "this week", and that one too in
      the last second of an hour. */
  lemma ExactUnlessThisWeek(query: string, now: Clock)
    requires NoUnderflow(PhraseOf(Lower(query)), now)
    ensures Exact(query, now) <==>
            (PhraseOf(Lower(query)) == ThisWeek && !MentionsWork(Lower(query)) ==> (now + 1) % 3600 == 0)
  {
    var phrase := PhraseOf(Lower(query));
    PhraseValid(Lower(query));
    if phrase != NoPhrase {
      WindowsAreHourAligned(phrase, now);
      WorkHoursOfFirstDay(phrase, now);
    }
  }

  /** Testing the hour finds the whole window, and nothing else exactly when the window is made of full
      hours. */
  lemma HourTestIff(w: Window)
    ensures (forall t: u64 :: Hour(w.start) <= Hour(t) <= Hour(w.end) <==> w.start <= t <= w.end) <==> FullHours(w)
  {
    if w.start <= w.end {
      HoursExactIff(w.start, w.end);
    } else if Hour(w.start) <= Hour(w.end) {
      assert Hour(w.start) <= Hour(w.start) <= Hour(w.end);
    }
  }

  lemma WeekEndsNow(query: string, now: Clock)
    requires EndsNow(query, now)
    ensures var w := QueryWindow(Lower(query), now);
            w.Some? && w.value.start <= w.value.end == now && w.value.start % 3600 == 0
  {
    WindowsAreHourAligned(ThisWeek, now);
    StartsAtMidnight(ThisWeek, now);
    MidnightHours(WindowOf(ThisWeek, now).value.start);
  }

  /** The plan's test of one event, told in the query's terms. */
  lemma PlanTest(query: string, now: Clock, e: ActivityEvent)
    ensures var w := QueryWindow(Lower(query), now);
            PlanMatches(e, PlanFor(query, now)) <==>
              MatchesQueryWords(e, Lower(query)) && (w.Some? ==> MatchesHours(e, w.value.start, w.value.end))
  {
  }

  /** From query text to result: exactly the events that the naive scan finds; for "this week",
      possibly also matching events of the hour that is running. */
  lemma SearchIsScan(rows: map<u64, ActivityEvent>, indexed: set<ActivityEvent>, query: string, now: Clock,
                     results: seq<ActivityEvent>)
    requires IsIndexedAnswer(rows, indexed, PlanFor(query, now), results)
    requires IndexAgrees(rows, indexed) && WantsIndex(PlanFor(query, now))
    ensures Exact(query, now) ==> forall e :: e in results <==> e in indexed && NaiveMatch(e, query, now)
    ensures EndsNow(query, now) ==> IsHourLateAnswer(indexed, query, now, results)
  {
    ExecutorRefinesScan(rows, indexed, PlanFor(query, now), results);
    if Exact(query, now) {
      forall e ensures PlanMatches(e, PlanFor(query, now)) <==> NaiveMatch(e, query, now) {
        ExactTest(query, now, e);
      }
    }
    if EndsNow(query, now) {
      forall e ensures PlanMatches(e, PlanFor(query, now)) <==>
                       MatchesQueryWords(e, Lower(query)) && (NaiveMatch(e, query, now) || IsHourLate(e, now)) {
        LateTest(query, now, e);
      }
    }
  }

  lemma ExactTest(query: string, now: Clock, e: ActivityEvent)
    requires Exact(query, now)
    ensures PlanMatches(e, PlanFor(query, now)) <==> NaiveMatch(e, query, now)
  {
    PlanTest(query, now, e);
    var w := QueryWindow(Lower(query), now);
    if w.Some? {
      HourTestIff(w.value);
    }
  }

  /** Dated after now, in the hour that is running. */
  predicate IsHourLate(e: ActivityEvent, now: Clock) {
    now < e.timestamp && Hour(e.timestamp) == Hour(now)
  }

  lemma LateTest(query: string, now: Clock, e: ActivityEvent)
    requires EndsNow(query, now)
    ensures PlanMatches(e, PlanFor(query, now)) <==>
            MatchesQueryWords(e, Lower(query)) && (NaiveMatch(e, query, now) || IsHourLate(e, now))
  {
    PlanTest(query, now, e);
    WeekEndsNow(query, now);
  }

  // ---- exactly when the search is exact ----

  /** An event that the query's words ask for, at any time. */
  function Wanted(query: string, time: u64): ActivityEvent {
    var keywords, kind := QueryKeywords(Lower(query)), QueryType(Lower(query));
    var content := if keywords == [] then "" else keywords[0];
    ActivityEvent(1, time, if kind.Some? then kind.value else Unknown, "", content, map[])
  }

  /** A kept keyword is a word that cleaning leaves alone. */
  lemma KeywordIsItsOwnWord(query: string, k: string)
    requires k in QueryKeywords(query)
    ensures k in Words(k) && Clean(k) == k && |k| > 1
  {
    KeptWordsMembers(Words(query), k);
    var w :| w in Words(query) && Clean(w) == k;
    CleanIdempotent(w);
    CleanedIsWord(w);
  }

  lemma WantedMatches(query: string, time: u64)
    ensures MatchesQueryWords(Wanted(query, time), Lower(query)) && TextsFreeOfNul(Wanted(query, time))
  {
    var e, keywords := Wanted(query, time), QueryKeywords(Lower(query));
    if keywords != [] {
      KeywordIsItsOwnWord(Lower(query), keywords[0]);
      assert Lower(keywords[0]) in Keywords(e);
      ContainsItself(Lower(keywords[0]));
      assert MatchesKeyword(e, keywords[0]);
    }
  }

  /** A window not made of full hours lets some matching event through that it should not. */
  lemma InexactEvent(query: string, now: Clock) returns (e: ActivityEvent)
    requires !Exact(query, now)
    ensures PlanMatches(e, PlanFor(query, now)) && !NaiveMatch(e, query, now) && e.id == 1 && TextsFreeOfNul(e)
  {
    var w := QueryWindow(Lower(query), now).value;
    HourTestIff(w);
    var t: u64 :| Hour(w.start) <= Hour(t) <= Hour(w.end) && !(w.start <= t <= w.end);
    e := Wanted(query, t);
    WantedMatches(query, t);
    PlanTest(query, now, e);
  }

  /** The plan asks for what the query means exactly when the query has no window or one of full hours,
      whatever the clock. */
  lemma PlanExactIff(query: string, now: Clock)
    ensures Exact(query, now) <==> forall e :: PlanMatches(e, PlanFor(query, now)) <==> NaiveMatch(e, query, now)
  {
    if Exact(query, now) {
      forall e ensures PlanMatches(e, PlanFor(query, now)) <==> NaiveMatch(e, query, now) {
        ExactTest(query, now, e);
      }
    } else {
      var e := InexactEvent(query, now);
    }
  }

  /** The search over `t` and an index of `indexed` may answer `results`. */
  ghost predicate IsSearchAnswer(t: Table, indexed: set<ActivityEvent>, query: string, now: Clock,
                                 results: seq<ActivityEvent>) {
    ValidTable(t) && IndexAgrees(t.rows, indexed) && IsIndexedAnswer(t.rows, indexed, PlanFor(query, now), results)
  }

  /** End to end: over every table and every index that agrees with it the results are those of the
      naive scan, exactly when the query has no window or one of full hours. */
  lemma SearchExactIff(query: string, now: Clock)
    requires WantsIndex(PlanFor(query, now))
    ensures Exact(query, now) <==>
            forall t, indexed, results | IsSearchAnswer(t, indexed, query, now, results) ::
              forall e :: e in results <==> e in indexed && NaiveMatch(e, query, now)
  {
    if Exact(query, now) {
      forall t, indexed, results | IsSearchAnswer(t, indexed, query, now, results)
        ensures forall e :: e in results <==> e in indexed && NaiveMatch(e, query, now)
      {
        SearchIsScan(t.rows, indexed, query, now, results);
      }
    } else {
      var e := InexactEvent(query, now);
      AnswerOfOne(e, query, now);
      assert e in [e];
    }
  }

  /** The answer over one stored and indexed event that the plan accepts. */
  lemma AnswerOfOne(e: ActivityEvent, query: string, now: Clock)
    requires PlanMatches(e, PlanFor(query, now)) && WantsIndex(PlanFor(query, now)) && e.id == 1
    ensures IsSearchAnswer(Table(map[1 := e], 1), {e}, query, now, [e])
  {
    var rows: map<u64, ActivityEvent> := map[1 := e];
    assert IsRow(rows, e);
    AdmittedRow(rows, {e}, PlanFor(query, now), e);
    assert forall x :: IsRow(rows, x) <==> x == e;
  }

  /** "this week" searches that do not end a full hour return matching events dated one second late,
      and there are such events. */
  lemma ThisWeekInexact(query: string, now: Clock)
    requires EndsNow(query, now) && (now + 1) % 3600 != 0
    ensures !Exact(query, now)
    ensures forall e | MatchesQueryWords(e, Lower(query)) && e.timestamp == now + 1 ::
              PlanMatches(e, PlanFor(query, now)) && !NaiveMatch(e, query, now)
    ensures exists e :: MatchesQueryWords(e, Lower(query)) && e.timestamp == now + 1
  {
    ExactUnlessThisWeek(query, now);
    WeekEndsNow(query, now);
    forall e | MatchesQueryWords(e, Lower(query)) && e.timestamp == now + 1
      ensures PlanMatches(e, PlanFor(query, now)) && !NaiveMatch(e, query, now)
    {
      assert Hour(now) == Hour(e.timestamp);
      LateTest(query, now, e);
    }
    WantedMatches(query, now + 1);
    assert Wanted(query, now + 1).timestamp == now + 1;
  }

  /** Both tokenisers agree on a shared word: if an event and a query have a white-space-delimited
      word in common, up to case, and its cleaned form is neither short nor a stop word, then the
      parser keeps that form and a keyword search for it finds the event. */
  lemma SharedWordIsFound(e: ActivityEvent, query: string, w: string, v: string)
    requires HasWord(e.content, w) || HasWord(e.source, w)
    requires HasWord(query, v) && DifferOnlyInCase(w, v)
    requires IsQueryKeyword(Clean(Lower(v)))
    ensures Clean(Lower(v)) in QueryKeywords(Lower(query))
    ensures MatchesKeyword(e, Clean(Lower(v)))
  {
    var c := Clean(Lower(v));
    LowerIsCanonical(w, v);
    CleanLower(w);
    WordsAreMaximalRuns(e.content, w);
    WordsAreMaximalRuns(e.source, w);
    assert c == Lower(Clean(w)) && IsKeyword(Clean(w));
    assert c in Keywords(e);
    LowerIdempotent(Clean(w));
    ContainsItself(c);
    WordsAreMaximalRuns(query, v);
    var i :| 0 <= i < |Words(query)| && Words(query)[i] == v;
    WordsLower(query);
    assert Words(Lower(query))[i] == Lower(v);
    KeptWordsMembers(Words(Lower(query)), c);
  }

  /** For a clock reading, the signed comparison keeps exactly the events dated up to it. */
  lemma DatedUpTo(now: Clock)
    ensures forall e: ActivityEvent :: DatedWithin(e, 0, now) <==> e.timestamp <= now
  {
  }
}
