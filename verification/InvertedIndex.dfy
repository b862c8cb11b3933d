/** The in-memory index: three posting maps and the set of known ids (inverted_index.cpp). */
module InvertedIndexes {
  import opened Base
  import opened Text
  import opened Events

  const BUCKET_SECONDS: int := 3600

  function Hour(timestamp: u64): u64 {
    timestamp / BUCKET_SECONDS
  }

  /** The name an event is filed under; events without a source are not filed. */
  function AppName(e: ActivityEvent): string {
    Lower(BaseName(e.source))
  }

  // ---- posting maps ----

  function KeysOf<K(==)>(pairs: set<(K, u64)>): set<K> {
    set p | p in pairs :: p.0
  }

  function IdsUnder<K(==)>(pairs: set<(K, u64)>, key: K): set<u64> {
    set p | p in pairs && p.0 == key :: p.1
  }

  /** A posting map files each id under its keys: the map of a set of (key, id) pairs. */
  function Postings<K(==)>(pairs: set<(K, u64)>): map<K, set<u64>> {
    map k | k in KeysOf(pairs) :: IdsUnder(pairs, k)
  }

  /** `index[key].insert(id)`. */
  function Posted<K(==)>(postings: map<K, set<u64>>, key: K, id: u64): map<K, set<u64>> {
    postings[key := (if key in postings then postings[key] else {}) + {id}]
  }

  lemma PostedPair<K>(pairs: set<(K, u64)>, key: K, id: u64)
    ensures Posted(Postings(pairs), key, id) == Postings(pairs + {(key, id)})
  {
    var all := pairs + {(key, id)};
    assert (key, id) in all;
    assert KeysOf(all) == KeysOf(pairs) + {key};
    assert IdsUnder(all, key) == IdsUnder(pairs, key) + {id};
    assert key !in KeysOf(pairs) ==> IdsUnder(pairs, key) == {};
    forall k | k != key ensures IdsUnder(all, k) == IdsUnder(pairs, k) {
    }
  }

  function Ids(events: set<ActivityEvent>): set<u64> {
    set e | e in events :: e.id
  }

  /** What one event adds to each map. */
  function KeywordPairsOf(e: ActivityEvent): set<(string, u64)> {
    set k | k in Keywords(e) :: (k, e.id)
  }

  function HourPairsOf(e: ActivityEvent): set<(u64, u64)> {
    {(Hour(e.timestamp), e.id)}
  }

  function AppPairsOf(e: ActivityEvent): set<(string, u64)> {
    if e.source == "" then {} else {(AppName(e), e.id)}
  }

  /** What each map holds once `events` have been added, in any order. */
  function KeywordPairs(events: set<ActivityEvent>): set<(string, u64)> {
    set e, p | e in events && p in KeywordPairsOf(e) :: p
  }

  function HourPairs(events: set<ActivityEvent>): set<(u64, u64)> {
    set e, p | e in events && p in HourPairsOf(e) :: p
  }

  function AppPairs(events: set<ActivityEvent>): set<(string, u64)> {
    set e, p | e in events && p in AppPairsOf(e) :: p
  }

  function AllKeywords(events: set<ActivityEvent>): set<string> {
    set e, k | e in events && k in Keywords(e) :: k
  }

  // ---- the scans that the searches stand for ----

  predicate MatchesKeyword(e: ActivityEvent, keyword: string) {
    exists k | k in Keywords(e) :: Contains(k, Lower(keyword))
  }

  predicate MatchesApp(e: ActivityEvent, app: string) {
    e.source != "" && Contains(AppName(e), Lower(app))
  }

  predicate MatchesHours(e: ActivityEvent, start: u64, end: u64) {
    Hour(start) <= Hour(e.timestamp) <= Hour(end)
  }

  function KeywordScan(events: set<ActivityEvent>, keyword: string): set<u64> {
    set e | e in events && MatchesKeyword(e, keyword) :: e.id
  }

  function AppScan(events: set<ActivityEvent>, app: string): set<u64> {
    set e | e in events && MatchesApp(e, app) :: e.id
  }

  function HourScan(events: set<ActivityEvent>, start: u64, end: u64): set<u64> {
    set e | e in events && MatchesHours(e, start, end) :: e.id
  }

  /** A keyword or application matches in any letter case: what is looked for stands somewhere in a
      keyword, or in the base name of the source, up to case. */
  lemma MatchesInAnyCase(e: ActivityEvent, text: string)
    ensures MatchesKeyword(e, text) <==>
            exists k, v :: k in Keywords(e) && DifferOnlyInCase(v, text) && Contains(k, v)
    ensures MatchesApp(e, text) <==>
            e.source != "" && exists v :: DifferOnlyInCase(v, text) && Contains(BaseName(e.source), v)
  {
    LowerChangesCaseOnly(text);
    forall k, v | k in Keywords(e) && DifferOnlyInCase(v, text) && Contains(k, v) ensures MatchesKeyword(e, text) {
      KeywordsAre(e, k);
      PartHasNoUpperCase(k, v);
      LowerIsCanonical(v, text);
    }
    ContainsLowered(BaseName(e.source), text);
  }

  lemma PartHasNoUpperCase(k: string, v: string)
    requires NoUpperCase(k) && Contains(k, v)
    ensures NoUpperCase(v)
  {
    var i :| 0 <= i <= |k| - |v| && OccursAt(k, v, i);
    assert forall j | 0 <= j < |v| :: v[j] == k[i..i + |v|][j] == k[i + j];
  }

  lemma ContainsLowered(s: string, text: string)
    ensures Contains(Lower(s), Lower(text)) <==> exists v :: DifferOnlyInCase(v, text) && Contains(s, v)
  {
    if Contains(Lower(s), Lower(text)) {
      var i :| 0 <= i <= |Lower(s)| - |Lower(text)| && OccursAt(Lower(s), Lower(text), i);
      var v := s[i..i + |text|];
      assert Lower(v) == Lower(s)[i..i + |text|];
      LowerIsCanonical(v, text);
      assert OccursAt(s, v, i);
    }
    forall v | DifferOnlyInCase(v, text) && Contains(s, v) ensures Contains(Lower(s), Lower(text)) {
      var i :| 0 <= i <= |s| - |v| && OccursAt(s, v, i);
      LowerIsCanonical(v, text);
      assert Lower(s)[i..i + |v|] == Lower(s[i..i + |v|]);
      assert OccursAt(Lower(s), Lower(text), i);
    }
  }

  /** Two texts that differ only in letter case find the same events. */
  lemma CaseDoesNotMatter(events: set<ActivityEvent>, a: string, b: string)
    requires DifferOnlyInCase(a, b)
    ensures KeywordScan(events, a) == KeywordScan(events, b) && AppScan(events, a) == AppScan(events, b)
  {
    LowerIsCanonical(a, b);
  }

  /** Hour buckets select exactly the timestamps of [start, end] if and only if the window is made of
      full hours (or runs to the end of time). */
  lemma HoursExactIff(start: u64, end: u64)
    requires start <= end
    ensures (forall t: u64 :: Hour(start) <= Hour(t) <= Hour(end) <==> start <= t <= end)
            <==> start % 3600 == 0 && ((end + 1) % 3600 == 0 || end == U64_LIMIT - 1)
  {
    if start % 3600 != 0 {
      var t: u64 := start - start % 3600;
      assert Hour(t) == Hour(start) && t < start;
    }
    if (end + 1) % 3600 != 0 && end < U64_LIMIT - 1 {
      var t: u64 := end + 1;
      assert Hour(t) == Hour(end);
    }
  }

  /** A time search misses no event dated within [start, end], and returns none an hour or more
      outside it. */
  lemma HourScanBounds(events: set<ActivityEvent>, start: u64, end: u64, e: ActivityEvent)
    requires e in events
    ensures start <= e.timestamp <= end ==> e.id in HourScan(events, start, end)
    ensures MatchesHours(e, start, end) ==> start - 3600 < e.timestamp < end + 3600
  {
  }

  /** Adding one event, map by map. */
  lemma KeywordsAdded(events: set<ActivityEvent>, e: ActivityEvent)
    ensures KeywordPairs(events + {e}) == KeywordPairs(events) + KeywordPairsOf(e)
  {
    assert e in events + {e};
  }

  lemma HourPairsAdded(events: set<ActivityEvent>, e: ActivityEvent)
    ensures HourPairs(events + {e}) == HourPairs(events) + HourPairsOf(e)
  {
    var all := events + {e};
    assert e in all;
    forall p ensures p in HourPairs(all) <==> p in HourPairs(events) || p in HourPairsOf(e) {
      if p in HourPairs(all) {
        var x :| x in all && p in HourPairsOf(x);
        assert x in events || x == e;
      }
    }
  }

  lemma HourAdded(events: set<ActivityEvent>, e: ActivityEvent)
    ensures Postings(HourPairs(events + {e})) == Posted(Postings(HourPairs(events)), Hour(e.timestamp), e.id)
  {
    HourPairsAdded(events, e);
    PostedPair(HourPairs(events), Hour(e.timestamp), e.id);
  }

  lemma AppPairsAdded(events: set<ActivityEvent>, e: ActivityEvent)
    ensures AppPairs(events + {e}) == AppPairs(events) + AppPairsOf(e)
  {
    var all := events + {e};
    assert e in all;
    forall p ensures p in AppPairs(all) <==> p in AppPairs(events) || p in AppPairsOf(e) {
      if p in AppPairs(all) {
        var x :| x in all && p in AppPairsOf(x);
        assert x in events || x == e;
      }
    }
  }

  lemma AppAdded(events: set<ActivityEvent>, e: ActivityEvent)
    ensures Postings(AppPairs(events + {e})) ==
            if e.source == "" then Postings(AppPairs(events)) else Posted(Postings(AppPairs(events)), AppName(e), e.id)
  {
    AppPairsAdded(events, e);
    if e.source == "" {
      assert AppPairs(events) + {} == AppPairs(events);
    } else {
      PostedPair(AppPairs(events), AppName(e), e.id);
    }
  }

  lemma IdAdded(events: set<ActivityEvent>, e: ActivityEvent)
    ensures Ids(events + {e}) == Ids(events) + {e.id}
  {
    assert e in events + {e};
  }

  /** The ids filed under keys that have `part` as a substring. */
  function Gathered(postings: map<string, set<u64>>, part: string): set<u64> {
    set k, id | k in postings && Contains(k, part) && id in postings[k] :: id
  }

  lemma GatheredPairs(pairs: set<(string, u64)>, part: string)
    ensures Gathered(Postings(pairs), part) == set p | p in pairs && Contains(p.0, part) :: p.1
  {
    forall p | p in pairs && Contains(p.0, part) ensures p.1 in Gathered(Postings(pairs), part) {
      assert p.0 in Postings(pairs) && p.1 in Postings(pairs)[p.0];
    }
  }

  lemma KeywordScanPairs(events: set<ActivityEvent>, keyword: string)
    ensures KeywordScan(events, keyword) ==
            set p | p in KeywordPairs(events) && Contains(p.0, Lower(keyword)) :: p.1
  {
    forall id | id in KeywordScan(events, keyword)
      ensures exists p :: p in KeywordPairs(events) && Contains(p.0, Lower(keyword)) && p.1 == id
    {
      var e :| e in events && MatchesKeyword(e, keyword) && e.id == id;
      var k :| k in Keywords(e) && Contains(k, Lower(keyword));
      assert (k, e.id) in KeywordPairsOf(e) && (k, e.id) in KeywordPairs(events);
    }
  }

  lemma AppScanPairs(events: set<ActivityEvent>, app: string)
    ensures AppScan(events, app) == set p | p in AppPairs(events) && Contains(p.0, Lower(app)) :: p.1
  {
    forall id | id in AppScan(events, app)
      ensures exists p :: p in AppPairs(events) && Contains(p.0, Lower(app)) && p.1 == id
    {
      var e :| e in events && MatchesApp(e, app) && e.id == id;
      assert (AppName(e), e.id) in AppPairsOf(e) && (AppName(e), e.id) in AppPairs(events);
    }
  }

  /** The loop of both text searches over a posting map, in whatever order the map is walked. */
  method GatherMatching(postings: map<string, set<u64>>, part: string) returns (ids: set<u64>)
    ensures ids == Gathered(postings, part)
  {
    ids := {};
    var todo := postings.Keys;
    while todo != {}
      invariant todo <= postings.Keys
      invariant ids == set k, id | k in postings && k !in todo && Contains(k, part) && id in postings[k] :: id
    {
      var key :| key in todo;
      if Contains(key, part) {
        ids := ids + postings[key];
      }
      todo := todo - {key};
    }
  }

  function KeywordIdPairs(keywords: seq<string>, id: u64): set<(string, u64)> {
    set k | k in keywords :: (k, id)
  }

  lemma KeywordIdPairsStep(keywords: seq<string>, i: nat, id: u64)
    requires i < |keywords|
    ensures KeywordIdPairs(keywords[..i + 1], id) == KeywordIdPairs(keywords[..i], id) + {(keywords[i], id)}
  {
    assert keywords[..i + 1] == keywords[..i] + [keywords[i]];
  }

  lemma KeywordIdPairsAll(keywords: seq<string>, e: ActivityEvent)
    requires Elements(keywords) == Keywords(e)
    ensures KeywordIdPairs(keywords, e.id) == KeywordPairsOf(e)
  {
    assert forall k :: k in keywords <==> k in Elements(keywords);
  }

  /** The loop of `add` over the keywords of an event. */
  method PostAll(postings: map<string, set<u64>>, keywords: seq<string>, id: u64, ghost pairs: set<(string, u64)>)
    returns (r: map<string, set<u64>>)
    requires postings == Postings(pairs)
    ensures r == Postings(pairs + KeywordIdPairs(keywords, id))
  {
    r := postings;
    assert pairs + KeywordIdPairs(keywords[..0], id) == pairs;
    for i := 0 to |keywords|
      invariant r == Postings(pairs + KeywordIdPairs(keywords[..i], id))
    {
      var done := pairs + KeywordIdPairs(keywords[..i], id);
      PostedPair(done, keywords[i], id);
      KeywordIdPairsStep(keywords, i, id);
      assert done + {(keywords[i], id)} == pairs + KeywordIdPairs(keywords[..i + 1], id);
      r := Posted(r, keywords[i], id);
    }
    assert keywords[..|keywords|] == keywords;
  }

  function IdsInHours(events: set<ActivityEvent>, first: int, below: int): set<u64> {
    set e | e in events && first <= Hour(e.timestamp) < below :: e.id
  }

  lemma HourBucketIds(events: set<ActivityEvent>, hour: u64)
    ensures (set e | e in events && Hour(e.timestamp) == hour :: e.id) == IdsUnder(HourPairs(events), hour)
    ensures hour !in KeysOf(HourPairs(events)) ==> IdsUnder(HourPairs(events), hour) == {}
  {
    forall e | e in events ensures (Hour(e.timestamp), e.id) in HourPairs(events) {
      assert (Hour(e.timestamp), e.id) in HourPairsOf(e);
    }
  }

  lemma HourBucket(events: set<ActivityEvent>, first: int, hour: u64)
    requires first <= hour
    ensures var found := if hour in Postings(HourPairs(events)) then Postings(HourPairs(events))[hour] else {};
            IdsInHours(events, first, hour + 1) == IdsInHours(events, first, hour) + found
  {
    HourBucketIds(events, hour);
    var ids := set e | e in events && Hour(e.timestamp) == hour :: e.id;
    assert IdsInHours(events, first, hour + 1) == IdsInHours(events, first, hour) + ids;
  }

  class InvertedIndex {
    var keywordIndex: map<string, set<u64>>
    var timeIndex: map<u64, set<u64>>
    var appIndex: map<string, set<u64>>
    var allEvents: set<u64>
    ghost var indexed: set<ActivityEvent>   // the events added since the last clear

    ghost predicate Valid()
      reads this
    {
      && keywordIndex == Postings(KeywordPairs(indexed))
      && timeIndex == Postings(HourPairs(indexed))
      && appIndex == Postings(AppPairs(indexed))
      && allEvents == Ids(indexed)
    }

    constructor ()
      ensures Valid() && indexed == {}
    {
      keywordIndex, timeIndex, appIndex, allEvents := map[], map[], map[], {};
      indexed := {};
    }

    method Add(e: ActivityEvent)
      requires Valid()
      modifies this
      ensures Valid() && indexed == old(indexed) + {e}
    {
      KeywordsAdded(indexed, e);
      HourAdded(indexed, e);
      AppAdded(indexed, e);
      IdAdded(indexed, e);
      allEvents := allEvents + {e.id};
      var keywords := ExtractKeywords(e);
      KeywordIdPairsAll(keywords, e);
      keywordIndex := PostAll(keywordIndex, keywords, e.id, KeywordPairs(indexed));
      timeIndex := Posted(timeIndex, e.timestamp / 3600, e.id);
      if e.source != "" {
        var app := StripDirectories(e.source);
        appIndex := Posted(appIndex, Lower(app), e.id);
      }
      indexed := indexed + {e};
    }

    /** The exact match, then every indexed keyword that the lowered keyword is part of. */
    method SearchKeyword(keyword: string) returns (results: set<u64>)
      requires Valid()
      ensures results == KeywordScan(indexed, keyword)
      ensures forall other | DifferOnlyInCase(other, keyword) :: results == KeywordScan(indexed, other)
    {
      var lowered := Lower(keyword);
      results := {};
      if lowered in keywordIndex {
        results := keywordIndex[lowered];
      }
      var partial := GatherMatching(keywordIndex, lowered);
      ContainsItself(lowered);
      KeywordScanPairs(indexed, keyword);
      GatheredPairs(KeywordPairs(indexed), lowered);
      results := results + partial;
      forall other | DifferOnlyInCase(other, keyword) ensures results == KeywordScan(indexed, other) {
        CaseDoesNotMatter(indexed, other, keyword);
      }
    }

    method SearchTimeRange(start: u64, end: u64) returns (results: set<u64>)
      requires Valid()
      ensures results == HourScan(indexed, start, end)
    {
      var first, last := start / 3600, end / 3600;
      results := {};
      var bucket := first;
      while bucket <= last
        invariant first <= bucket && bucket <= (if first <= last then last + 1 else first)
        invariant results == IdsInHours(indexed, first, bucket)
      {
        if bucket in timeIndex {
          results := results + timeIndex[bucket];
        }
        HourBucket(indexed, first, bucket);
        bucket := bucket + 1;
      }
      if first <= last {
        assert HourScan(indexed, start, end) == IdsInHours(indexed, first, last + 1);
      } else {
        assert HourScan(indexed, start, end) == {};
      }
    }

    method SearchApplication(name: string) returns (results: set<u64>)
      requires Valid()
      ensures results == AppScan(indexed, name)
      ensures forall other | DifferOnlyInCase(other, name) :: results == AppScan(indexed, other)
    {
      results := GatherMatching(appIndex, Lower(name));
      AppScanPairs(indexed, name);
      GatheredPairs(AppPairs(indexed), Lower(name));
      forall other | DifferOnlyInCase(other, name) ensures results == AppScan(indexed, other) {
        CaseDoesNotMatter(indexed, other, name);
      }
    }

    /** Distinct ids, and distinct keywords, of the events added since the last clear. */
    method Counts() returns (events: nat, keywords: nat)
      requires Valid()
      ensures events == |Ids(indexed)| && keywords == |AllKeywords(indexed)|
    {
      events, keywords := |allEvents|, |keywordIndex|;
      assert keywordIndex.Keys == AllKeywords(indexed) by {
        forall e, k | e in indexed && k in Keywords(e) ensures k in keywordIndex {
          assert (k, e.id) in KeywordPairsOf(e) && (k, e.id) in KeywordPairs(indexed);
        }
      }
      assert |keywordIndex.Keys| == |keywordIndex|;
    }

    method Clear()
      requires Valid()
      modifies this
      ensures Valid() && indexed == {}
    {
      keywordIndex, timeIndex, appIndex, allEvents := map[], map[], map[], {};
      indexed := {};
    }
  }
}
