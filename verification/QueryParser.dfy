/** Calendar windows of the query parser (query_parser.cpp). */
module Calendar {
  import opened Base

  const DAY: int := 86400

  /** A clock reading in seconds: `system_clock` counts nanoseconds since 1970 in 63 bits. */
  type Clock = x: int | 0 <= x <= 9_223_372_036

  /** Midnight (UTC) of the current day. */
  function TodayStart(now: Clock): u64 {
    now / DAY * DAY
  }

  /** `tm_wday` of a midnight: 0 is Sunday, and 1 January 1970 was a Thursday. */
  function Weekday(midnight: u64): nat {
    (midnight / DAY + 4) % 7
  }

  /** Weekdays follow each other, and the one known date: 1 January 1970 was a Thursday. */
  lemma WeekdaysInTurn(midnight: u64)
    ensures midnight < 86400 ==> Weekday(midnight) == 4
    ensures midnight >= 86400 ==> Weekday(midnight) == (Weekday(midnight - 86400) + 1) % 7
  {
  }

  datatype Phrase = Today | Yesterday | ThisWeek | LastWeek | LastDay(wday: nat) | NoPhrase

  datatype Window = Window(start: u64, end: u64)

  /** How many days back from today the phrase's window starts. */
  function Lookback(phrase: Phrase, now: Clock): int {
    var wday := Weekday(TodayStart(now));
    var sinceMonday := (if wday == 0 then 7 else wday) - 1;
    match phrase
    case Today => 0
    case Yesterday => 1
    case ThisWeek => sinceMonday
    case LastWeek => sinceMonday + 7
    case LastDay(d) => if wday - d <= 0 then wday - d + 7 else wday - d
    case NoPhrase => 0
  }

  /** The window in `uint64_t` arithmetic. */
  function WindowOf(phrase: Phrase, now: Clock): Option<Window> {
    var ts := TodayStart(now);
    var start := Wrap(ts - Lookback(phrase, now) * DAY);
    match phrase
    case Today => Some(Window(start, Wrap(ts + DAY - 1)))
    case Yesterday => Some(Window(start, Wrap(ts - 1)))
    case ThisWeek => Some(Window(start, now))
    case LastWeek => Some(Window(start, Wrap(ts - Lookback(ThisWeek, now) * DAY - 1)))
    case LastDay(_) => Some(Window(start, Wrap(start + DAY - 1)))
    case NoPhrase => None
  }

  predicate ValidPhrase(phrase: Phrase) {
    phrase.LastDay? ==> phrase.wday < 7
  }

  /** The clock is late enough for the window not to reach before 1970. */
  predicate NoUnderflow(phrase: Phrase, now: Clock) {
    Lookback(phrase, now) <= now / DAY
  }

  ghost predicate IsMidnight(t: int) {
    t >= 0 && t % DAY == 0
  }

  /** The latest midnight of weekday `wday` that is at most `limit`. */
  ghost predicate IsLatest(midnight: u64, wday: nat, limit: int) {
    && IsMidnight(midnight) && Weekday(midnight) == wday && midnight <= limit
    && forall m: u64 | IsMidnight(m) && Weekday(m) == wday && m <= limit :: m <= midnight
  }

  /** A midnight of the right weekday less than a week before the limit is the latest one. */
  lemma LatestWithinAWeek(midnight: u64, wday: nat, limit: int)
    requires IsMidnight(midnight) && Weekday(midnight) == wday
    requires midnight <= limit < midnight + 7 * DAY
    ensures IsLatest(midnight, wday, limit)
  {
    forall m: u64 | IsMidnight(m) && Weekday(m) == wday && m <= limit ensures m <= midnight {
      var d, d' := midnight / DAY, m / DAY;
      assert midnight == d * DAY && m == d' * DAY;
      assert d' < d + 7;
      assert (d + 4) % 7 == (d' + 4) % 7;
    }
  }

  /** The start is the intended midnight exactly when the clock is late enough, and thirteen days
      are always enough. */
  lemma UnderflowIff(phrase: Phrase, now: Clock)
    requires ValidPhrase(phrase) && phrase != NoPhrase
    ensures 0 <= Lookback(phrase, now) <= 13
    ensures WindowOf(phrase, now).value.start == TodayStart(now) - Lookback(phrase, now) * DAY
            <==> NoUnderflow(phrase, now)
    ensures TodayStart(now) >= 13 * DAY ==> NoUnderflow(phrase, now)
  {
  }

  lemma MidnightBack(now: Clock, days: int)
    requires 0 <= days <= now / DAY
    ensures var m := TodayStart(now) - days * DAY;
            && IsMidnight(m) && m == (now / DAY - days) * DAY && m / DAY == now / DAY - days
            && Weekday(m) == (now / DAY - days + 4) % 7
  {
  }

  /** Going back `Lookback` days lands on the weekday that the phrase names. */
  lemma LookbackWeekday(day: int, target: nat, back: int)
    requires day >= back >= 0 && target < 7 && (day + 4) % 7 == (target + back) % 7
    ensures (day - back + 4) % 7 == target
  {
    var q, r := (day + 4) / 7, (target + back) / 7;
    assert day + 4 == 7 * q + (day + 4) % 7 && target + back == 7 * r + (target + back) % 7;
    assert day - back + 4 == 7 * (q - r) + target;
  }

  lemma StartWeekday(phrase: Phrase, now: Clock, target: nat)
    requires ValidPhrase(phrase) && phrase != NoPhrase && NoUnderflow(phrase, now) && target < 7
    requires (now / DAY + 4) % 7 == (target + Lookback(phrase, now)) % 7
    ensures var start := WindowOf(phrase, now).value.start;
            start == TodayStart(now) - Lookback(phrase, now) * DAY && IsMidnight(start) && Weekday(start) == target
  {
    UnderflowIff(phrase, now);
    MidnightBack(now, Lookback(phrase, now));
    LookbackWeekday(now / DAY, target, Lookback(phrase, now));
  }

  lemma ThisWeekWindow(now: Clock)
    requires NoUnderflow(ThisWeek, now)
    ensures var w := WindowOf(ThisWeek, now).value; IsLatest(w.start, 1, TodayStart(now)) && w.end == now
  {
    MidnightBack(now, 0);
    StartWeekday(ThisWeek, now, 1);
    LatestWithinAWeek(WindowOf(ThisWeek, now).value.start, 1, TodayStart(now));
  }

  lemma LastWeekWindow(now: Clock)
    requires NoUnderflow(LastWeek, now)
    ensures var w := WindowOf(LastWeek, now).value;
            w.end - w.start == 7 * DAY - 1 && Weekday(w.start) == 1 && IsLatest(w.end + 1, 1, TodayStart(now))
  {
    StartWeekday(LastWeek, now, 1);
    ThisWeekWindow(now);
    StartWeekday(ThisWeek, now, 1);
    var w, monday := WindowOf(LastWeek, now).value, WindowOf(ThisWeek, now).value.start;
    assert w.start == monday - 7 * DAY && w.end == monday - 1;
  }

  lemma LastDayWindow(now: Clock, d: nat)
    requires d < 7 && NoUnderflow(LastDay(d), now)
    ensures var w := WindowOf(LastDay(d), now).value;
            && IsLatest(w.start, d, TodayStart(now) - 1)
            && w.end == w.start + DAY - 1 && TodayStart(now) - 7 * DAY <= w.start
  {
    MidnightBack(now, 0);
    StartWeekday(LastDay(d), now, d);
    LatestWithinAWeek(WindowOf(LastDay(d), now).value.start, d, TodayStart(now) - 1);
  }

  /** What the windows are, for every clock late enough. */
  lemma CalendarWindows(phrase: Phrase, now: Clock)
    requires ValidPhrase(phrase) && phrase != NoPhrase && NoUnderflow(phrase, now)
    ensures var ts, w := TodayStart(now), WindowOf(phrase, now).value;
            match phrase
            case Today => w == Window(ts, ts + DAY - 1) && w.start <= now <= w.end
            case Yesterday => w == Window(ts - DAY, ts - 1)
            case ThisWeek => IsLatest(w.start, 1, ts) && w.end == now
            case LastWeek => w.end - w.start == 7 * DAY - 1 && Weekday(w.start) == 1 && IsLatest(w.end + 1, 1, ts)
            case LastDay(d) => IsLatest(w.start, d, ts - 1) && w.end == w.start + DAY - 1 && ts - 7 * DAY <= w.start
  {
    match phrase
    case Today => MidnightBack(now, 0);
    case Yesterday => MidnightBack(now, 1);
    case ThisWeek => ThisWeekWindow(now);
    case LastWeek => LastWeekWindow(now);
    case LastDay(d) => LastDayWindow(now, d);
  }

  /** Work hours: nine to five of the window's first day. */
  function WorkHours(w: Window): Window {
    var start := Wrap(w.start + 9 * 3600);
    Window(start, Wrap(start + 8 * 3600 - 1))
  }

  lemma WorkHoursOfFirstDay(phrase: Phrase, now: Clock)
    requires ValidPhrase(phrase) && phrase != NoPhrase && NoUnderflow(phrase, now)
    ensures var w := WindowOf(phrase, now).value;
            WorkHours(w) == Window(w.start + 9 * 3600, w.start + 17 * 3600 - 1) && IsMidnight(w.start)
  {
    UnderflowIff(phrase, now);
    MidnightBack(now, Lookback(phrase, now));
  }

  /** Full hours: the window is a union of hour buckets. */
  predicate HourAligned(w: Window) {
    w.start % 3600 == 0 && (w.end + 1) % 3600 == 0
  }

  lemma StartsAtMidnight(phrase: Phrase, now: Clock)
    requires ValidPhrase(phrase) && phrase != NoPhrase && NoUnderflow(phrase, now)
    ensures var w := WindowOf(phrase, now).value; IsMidnight(w.start) && w.start <= TodayStart(now)
  {
    UnderflowIff(phrase, now);
    MidnightBack(now, Lookback(phrase, now));
  }

  lemma EndsBeforeMidnight(phrase: Phrase, now: Clock)
    requires ValidPhrase(phrase) && phrase != NoPhrase && phrase != ThisWeek && NoUnderflow(phrase, now)
    ensures var w := WindowOf(phrase, now).value; IsMidnight(w.end + 1) && w.start < w.end
  {
    StartsAtMidnight(phrase, now);
    CalendarWindows(phrase, now);
    MidnightBack(now, 0);
    if phrase.Today? || phrase.LastDay? {
      NextMidnight(WindowOf(phrase, now).value.start);
    }
  }

  lemma NextMidnight(t: u64)
    requires IsMidnight(t)
    ensures IsMidnight(t + DAY)
  {
  }

  /** Every window is made of full hours, but "this week", which ends now. */
  lemma WindowsAreHourAligned(phrase: Phrase, now: Clock)
    requires ValidPhrase(phrase) && phrase != NoPhrase && NoUnderflow(phrase, now)
    ensures var w := WindowOf(phrase, now).value;
            && w.start <= w.end
            && HourAligned(WorkHours(w))
            && (phrase != ThisWeek ==> HourAligned(w))
            && (phrase == ThisWeek ==> (HourAligned(w) <==> (now + 1) % 3600 == 0))
  {
    WorkHoursAligned(phrase, now);
    if phrase == ThisWeek {
      StartsAtMidnight(phrase, now);
      MidnightHours(WindowOf(phrase, now).value.start);
      MidnightBack(now, 0);
    } else {
      PlainWindowAligned(phrase, now);
    }
  }

  lemma WorkHoursAligned(phrase: Phrase, now: Clock)
    requires ValidPhrase(phrase) && phrase != NoPhrase && NoUnderflow(phrase, now)
    ensures HourAligned(WorkHours(WindowOf(phrase, now).value))
  {
    var w := WindowOf(phrase, now).value;
    WorkHoursOfFirstDay(phrase, now);
    MidnightHours(w.start);
    HoursLater(w.start, 9);
    HoursLater(w.start, 17);
  }

  lemma HoursLater(t: int, hours: int)
    requires t % 3600 == 0
    ensures (t + hours * 3600) % 3600 == 0
  {
  }

  lemma PlainWindowAligned(phrase: Phrase, now: Clock)
    requires ValidPhrase(phrase) && phrase != NoPhrase && phrase != ThisWeek && NoUnderflow(phrase, now)
    ensures var w := WindowOf(phrase, now).value; HourAligned(w) && w.start <= w.end
  {
    var w := WindowOf(phrase, now).value;
    StartsAtMidnight(phrase, now);
    EndsBeforeMidnight(phrase, now);
    MidnightHours(w.start);
    MidnightHours(w.end + 1);
  }

  lemma MidnightHours(t: int)
    requires IsMidnight(t)
    ensures t % 3600 == 0
  {
    var d := t / DAY;
    assert t == 3600 * (24 * d);
  }
}

/** The query parser (query_parser.cpp) and the plan made from its result (query_planner.cpp). */
module QueryParsers {
  import opened Base
  import opened Text
  import opened Events
  import opened Calendar

  class QuerySpec {
    var keywords: seq<string>
    var timeStart: Option<u64>
    var timeEnd: Option<u64>
    var eventType: Option<EventType>
    var application: Option<string>
    const rawQuery: string

    constructor (rawQuery: string)
      ensures keywords == [] && timeStart == None && timeEnd == None
      ensures eventType == None && application == None && this.rawQuery == rawQuery
    {
      keywords, timeStart, timeEnd, eventType, application := [], None, None, None, None;
      this.rawQuery := rawQuery;
    }
  }

  // ---- time expressions ----

  /** Day names with their `tm_wday`, in the order they are looked for. */
  const DAY_NAMES: seq<(string, nat)> := [
    ("monday", 1), ("tuesday", 2), ("wednesday", 3), ("thursday", 4), ("friday", 5), ("saturday", 6), ("sunday", 0)]

  /** The first day name from position `k` on that the query mentions after "last ". */
  function NamedDay(query: string, k: nat): Phrase
    requires k <= |DAY_NAMES|
    decreases |DAY_NAMES| - k
  {
    if k == |DAY_NAMES| then NoPhrase
    else if Contains(query, "last " + DAY_NAMES[k].0) then LastDay(DAY_NAMES[k].1)
    else NamedDay(query, k + 1)
  }

  function PhraseOf(query: string): Phrase {
    if Contains(query, "today") then Today
    else if Contains(query, "yesterday") then Yesterday
    else if Contains(query, "this week") then ThisWeek
    else if Contains(query, "last week") then LastWeek
    else NamedDay(query, 0)
  }

  lemma {:induction false} NamedDayValid(query: string, k: nat)
    requires k <= |DAY_NAMES|
    ensures ValidPhrase(NamedDay(query, k)) && (NamedDay(query, k).LastDay? || NamedDay(query, k) == NoPhrase)
    decreases |DAY_NAMES| - k
  {
    if k < |DAY_NAMES| {
      NamedDayValid(query, k + 1);
    }
  }

  predicate MentionsWork(query: string) {
    Contains(query, "work hours") || Contains(query, "during work")
  }

  /** The time window of a lower-case query. */
  function QueryWindow(query: string, now: Clock): Option<Window> {
    var w := WindowOf(PhraseOf(query), now);
    if w.Some? && MentionsWork(query) then Some(WorkHours(w.value)) else w
  }

  // ---- which text means which window ----

  /** The query's window is the seconds from `start` to `end`, or, if it speaks of work, nine to five of
      the day that begins at `start`. */
  ghost predicate Yields(query: string, now: Clock, start: int, end: int) {
    var w := QueryWindow(query, now);
    && w.Some?
    && if Contains(query, "work hours") || Contains(query, "during work") then
         w.value.start == start + 32400 && w.value.end == start + 61199
       else w.value.start == start && w.value.end == end
  }

  /** The window is the latest day of weekday `wday` before today. */
  ghost predicate YieldsLast(query: string, now: Clock, wday: nat) {
    var limit := now / 86400 * 86400 - 1;
    exists start: u64 :: IsLatest(start, wday, limit) && Yields(query, now, start, start + 86399)
  }

  lemma PhraseYields(query: string, now: Clock)
    requires now >= 13 * 86400 && PhraseOf(query) != NoPhrase
    ensures var w := WindowOf(PhraseOf(query), now).value; Yields(query, now, w.start, w.end)
    ensures NoUnderflow(PhraseOf(query), now)
  {
    NamedDayValid(query, 0);
    UnderflowIff(PhraseOf(query), now);
    WorkHoursOfFirstDay(PhraseOf(query), now);
  }

  /** The phrases that stand before the day names, in the order in which they are looked for. */
  lemma PhraseTexts(query: string, now: Clock)
    requires now >= 13 * 86400
    ensures var today := now / 86400 * 86400;
            if Contains(query, "today") then Yields(query, now, today, today + 86399)
            else if Contains(query, "yesterday") then Yields(query, now, today - 86400, today - 1)
            else if Contains(query, "this week") then
              exists monday: u64 :: IsLatest(monday, 1, today) && Yields(query, now, monday, now)
            else if Contains(query, "last week") then
              exists monday: u64 :: IsLatest(monday, 1, today) && Yields(query, now, monday - 604800, monday - 1)
            else true
  {
    if PhraseOf(query) in {Today, Yesterday, ThisWeek, LastWeek} {
      PhraseYields(query, now);
      CalendarWindows(PhraseOf(query), now);
      var w := WindowOf(PhraseOf(query), now).value;
      if PhraseOf(query) == LastWeek {
        var monday: u64 := w.end + 1;
        assert IsLatest(monday, 1, now / 86400 * 86400) && Yields(query, now, monday - 604800, monday - 1);
      }
    }
  }

  /** The day names, in the order in which they are looked for; without a phrase there is no window. */
  lemma DayTexts(query: string, now: Clock)
    requires now >= 13 * 86400
    requires !Contains(query, "today") && !Contains(query, "yesterday")
    requires !Contains(query, "this week") && !Contains(query, "last week")
    ensures if Contains(query, "last monday") then YieldsLast(query, now, 1)
            else if Contains(query, "last tuesday") then YieldsLast(query, now, 2)
            else if Contains(query, "last wednesday") then YieldsLast(query, now, 3)
            else if Contains(query, "last thursday") then YieldsLast(query, now, 4)
            else if Contains(query, "last friday") then YieldsLast(query, now, 5)
            else if Contains(query, "last saturday") then YieldsLast(query, now, 6)
            else if Contains(query, "last sunday") then YieldsLast(query, now, 0)
            else QueryWindow(query, now) == None
  {
    NamedDayUnrolled(query);
    var phrase := PhraseOf(query);
    if phrase.LastDay? {
      PhraseYields(query, now);
      CalendarWindows(phrase, now);
      var start := WindowOf(phrase, now).value.start;
      assert IsLatest(start, phrase.wday, now / 86400 * 86400 - 1) && Yields(query, now, start, start + 86399);
    }
  }

  lemma NamedDayStep(query: string, k: nat)
    requires k < 7
    ensures NamedDay(query, k) ==
            if Contains(query, "last " + DAY_NAMES[k].0) then LastDay(DAY_NAMES[k].1) else NamedDay(query, k + 1)
    ensures NamedDay(query, 7) == NoPhrase
  {
  }

  lemma NamedDayUnrolled(query: string)
    ensures NamedDay(query, 0) ==
            if Contains(query, "last monday") then LastDay(1)
            else if Contains(query, "last tuesday") then LastDay(2)
            else if Contains(query, "last wednesday") then LastDay(3)
            else if Contains(query, "last thursday") then LastDay(4)
            else if Contains(query, "last friday") then LastDay(5)
            else if Contains(query, "last saturday") then LastDay(6)
            else if Contains(query, "last sunday") then LastDay(0)
            else NoPhrase
  {
    assert "last " + "monday" == "last monday" && "last " + "tuesday" == "last tuesday";
    assert "last " + "wednesday" == "last wednesday" && "last " + "thursday" == "last thursday";
    assert "last " + "friday" == "last friday" && "last " + "saturday" == "last saturday";
    assert "last " + "sunday" == "last sunday";
    NamedDayStep(query, 6);
    NamedDayStep(query, 5);
    NamedDayStep(query, 4);
    NamedDayStep(query, 3);
    NamedDayStep(query, 2);
    NamedDayStep(query, 1);
    NamedDayStep(query, 0);
  }

  /** On Friday 5 January 2024 at noon, "last tuesday" is the second day of that month. */
  lemma LastTuesday(query: string)
    requires Contains(query, "last tuesday") && !Contains(query, "last monday")
    requires !Contains(query, "today") && !Contains(query, "yesterday")
    requires !Contains(query, "this week") && !Contains(query, "last week")
    requires !Contains(query, "work hours") && !Contains(query, "during work")
    ensures QueryWindow(query, 1_704_456_000) == Some(Window(1_704_153_600, 1_704_239_999))
  {
    NamedDayUnrolled(query);
  }

  // ---- event types ----

  predicate MentionsAny(query: string, words: seq<string>) {
    exists k | 0 <= k < |words| :: Contains(query, words[k])
  }

  function QueryType(query: string): Option<EventType> {
    if Contains(query, "file") then
      if MentionsAny(query, ["edit", "modif"]) then Some(FileModified)
      else if Contains(query, "open") then Some(FileOpened)
      else None
    else if MentionsAny(query, ["website", "browser", "visit"]) then Some(BrowserVisit)
    else if MentionsAny(query, ["clipboard", "copied", "copy"]) then Some(ClipboardCopy)
    else if MentionsAny(query, ["window", "focus"]) then Some(WindowFocus)
    else if Contains(query, "screenshot") then Some(ScreenshotCaptured)
    else None
  }

  /** Which words of the query mean which type, in their order of precedence. */
  lemma TypeTexts(query: string)
    ensures QueryType(query) ==
            if Contains(query, "file") then
              if Contains(query, "edit") || Contains(query, "modif") then Some(FileModified)
              else if Contains(query, "open") then Some(FileOpened)
              else None
            else if Contains(query, "website") || Contains(query, "browser") || Contains(query, "visit") then
              Some(BrowserVisit)
            else if Contains(query, "clipboard") || Contains(query, "copied") || Contains(query, "copy") then
              Some(ClipboardCopy)
            else if Contains(query, "window") || Contains(query, "focus") then Some(WindowFocus)
            else if Contains(query, "screenshot") then Some(ScreenshotCaptured)
            else None
  {
    MentionsUnrolled(query);
  }

  // ---- keywords ----

  predicate IsStopWord(w: string) {
    w in {
      "what", "was", "i", "doing", "the", "a", "an", "in", "on", "at",
      "to", "for", "of", "is", "are", "were", "has", "have", "had",
      "do", "does", "did", "will", "would", "could", "should", "can",
      "my", "me", "this", "that", "these", "those", "it", "its",
      "today", "yesterday", "last", "week", "during", "work", "hours",
      "files", "file", "edited", "opened", "websites", "visited",
      "browser", "window", "clipboard", "screenshot", "monday", "tuesday",
      "wednesday", "thursday", "friday", "saturday", "sunday"
    }
  }

  predicate IsQueryKeyword(clean: string) {
    |clean| > 1 && !IsStopWord(clean)
  }

  function KeptWords(words: seq<string>): seq<string> {
    if words == [] then []
    else
      var clean := Clean(words[0]);
      (if IsQueryKeyword(clean) then [clean] else []) + KeptWords(words[1..])
  }

  /** The keywords of a lower-case query, in order and with repetitions. */
  function QueryKeywords(query: string): seq<string> {
    KeptWords(Words(query))
  }

  lemma KeptWordsCons(w: string, words: seq<string>)
    ensures KeptWords([w] + words) == (if IsQueryKeyword(Clean(w)) then [Clean(w)] else []) + KeptWords(words)
  {
    assert ([w] + words)[1..] == words;
  }

  lemma KeepWord(kept: seq<string>, w: string, words: seq<string>)
    ensures kept + KeptWords([w] + words) ==
            (if IsQueryKeyword(Clean(w)) then kept + [Clean(w)] else kept) + KeptWords(words)
  {
    KeptWordsCons(w, words);
    Associative(kept, if IsQueryKeyword(Clean(w)) then [Clean(w)] else [], KeptWords(words));
  }

  lemma {:induction false} KeptWordsMembers(words: seq<string>, k: string)
    ensures k in KeptWords(words) <==> IsQueryKeyword(k) && exists w | w in words :: Clean(w) == k
  {
    if words != [] {
      var w, rest := words[0], words[1..];
      assert words == [w] + rest;
      KeptWordsCons(w, rest);
      KeptWordsMembers(rest, k);
      assert k in KeptWords(words) <==> (IsQueryKeyword(Clean(w)) && Clean(w) == k) || k in KeptWords(rest);
      assert forall v :: v in words <==> v == w || v in rest;
    }
  }

  lemma KeptWordsStep(w: string, rest: seq<string>, b: seq<string>)
    requires KeptWords(rest + b) == KeptWords(rest) + KeptWords(b)
    ensures KeptWords([w] + rest + b) == KeptWords([w] + rest) + KeptWords(b)
  {
    KeptWordsCons(w, rest);
    KeptWordsCons(w, rest + b);
    Associative([w], rest, b);
    Associative(if IsQueryKeyword(Clean(w)) then [Clean(w)] else [], KeptWords(rest), KeptWords(b));
  }

  /** Keywords come in the order of the words, with repetitions. */
  lemma {:induction false} KeptWordsInOrder(a: seq<string>, b: seq<string>)
    ensures KeptWords(a + b) == KeptWords(a) + KeptWords(b)
  {
    if a == [] {
      assert a + b == b;
    } else {
      KeptWordsInOrder(a[1..], b);
      KeptWordsStep(a[0], a[1..], b);
      assert a == [a[0]] + a[1..];
    }
  }

  /** The keywords of a query are its cleaned words of more than one character, except these. */
  lemma QueryKeywordsAre(query: string, k: string)
    ensures k in QueryKeywords(query) <==>
              && |k| > 1
              && k !in {
                "an", "are", "at", "browser", "can", "clipboard", "could", "did", "do", "does", "doing", "during",
                "edited", "file", "files", "for", "friday", "had", "has", "have", "hours", "in", "is", "it", "its",
                "last", "me", "monday", "my", "of", "on", "opened", "saturday", "screenshot", "should", "sunday",
                "that", "the", "these", "this", "those", "thursday", "to", "today", "tuesday", "visited", "was",
                "websites", "wednesday", "week", "were", "what", "will", "window", "work", "would", "yesterday"}
              && exists w :: HasWord(query, w) && Clean(w) == k
  {
    KeptWordsMembers(Words(query), k);
    forall w ensures w in Words(query) <==> HasWord(query, w) {
      WordsAreMaximalRuns(query, w);
    }
  }

  // ---- the parser ----

  /** "last monday" and the like: the first name of the table that matches. */
  method ResolveDayName(query: string, spec: QuerySpec, now: Clock)
    modifies spec`timeStart, spec`timeEnd
    ensures SetsWindow(spec, WindowOf(NamedDay(query, 0), now), old(spec.timeStart), old(spec.timeEnd))
  {
    var ts: int := now / 86400 * 86400;
    var k := 0;
    while k < |DAY_NAMES|
      invariant 0 <= k <= |DAY_NAMES|
      invariant NamedDay(query, 0) == NamedDay(query, k)
      invariant spec.timeStart == old(spec.timeStart) && spec.timeEnd == old(spec.timeEnd)
    {
      if Contains(query, "last " + DAY_NAMES[k].0) {
        var diff := Weekday(ts) - DAY_NAMES[k].1;
        if diff <= 0 {
          diff := diff + 7;
        }
        var targetDayStart: int := Wrap(ts - diff * 86400);
        spec.timeStart := Some(targetDayStart);
        spec.timeEnd := Some(Wrap(targetDayStart + 86400 - 1));
        return;
      }
      k := k + 1;
    }
  }

  /** The window's limits, or what was there before when there is no window. */
  ghost predicate SetsWindow(spec: QuerySpec, w: Option<Window>, start: Option<u64>, end: Option<u64>)
    reads spec
  {
    && spec.timeStart == (if w.Some? then Some(w.value.start) else start)
    && spec.timeEnd == (if w.Some? then Some(w.value.end) else end)
  }

  /** Monday of the current week, Sunday counting as the seventh day. */
  method WeekStart(now: Clock) returns (r: u64)
    ensures r == Wrap(TodayStart(now) - Lookback(ThisWeek, now) * DAY)
  {
    var ts: int := now / 86400 * 86400;
    var dayOfWeek := Weekday(ts);
    if dayOfWeek == 0 {
      dayOfWeek := 7;
    }
    r := Wrap(ts - (dayOfWeek - 1) * 86400);
  }

  method ResolvePhrase(query: string, spec: QuerySpec, now: Clock)
    modifies spec`timeStart, spec`timeEnd
    ensures SetsWindow(spec, WindowOf(PhraseOf(query), now), old(spec.timeStart), old(spec.timeEnd))
  {
    var ts: int := now / 86400 * 86400;
    if Contains(query, "today") {
      spec.timeStart := Some(ts);
      spec.timeEnd := Some(ts + 86400 - 1);
    } else if Contains(query, "yesterday") {
      spec.timeStart := Some(Wrap(ts - 86400));
      spec.timeEnd := Some(Wrap(ts - 1));
    } else if Contains(query, "this week") {
      var weekStart := WeekStart(now);
      spec.timeStart := Some(weekStart);
      spec.timeEnd := Some(now);
    } else if Contains(query, "last week") {
      var thisWeekStart: int := WeekStart(now);
      WrapTwice(ts - Lookback(ThisWeek, now) * DAY, 7 * DAY);
      WrapTwice(ts - Lookback(ThisWeek, now) * DAY, 1);
      spec.timeStart := Some(Wrap(thisWeekStart - 7 * 86400));
      spec.timeEnd := Some(Wrap(thisWeekStart - 1));
    } else {
      ResolveDayName(query, spec, now);
    }
  }

  /** Limits that a spec already has, after the work-hours adjustment. */
  function AdjustedLimits(query: string, start: Option<u64>, end: Option<u64>): (Option<u64>, Option<u64>) {
    if start.Some? && MentionsWork(query) then
      var w := WorkHours(Window(start.value, start.value));
      (Some(w.start), Some(w.end))
    else (start, end)
  }

  method ResolveTimeExpression(query: string, spec: QuerySpec, now: Clock)
    modifies spec`timeStart, spec`timeEnd
    ensures var limits := AdjustedLimits(query, old(spec.timeStart), old(spec.timeEnd));
            SetsWindow(spec, QueryWindow(query, now), limits.0, limits.1)
  {
    ResolvePhrase(query, spec, now);
    if Contains(query, "work hours") || Contains(query, "during work") {
      if spec.timeStart.Some? {
        spec.timeStart := Some(Wrap(spec.timeStart.value + 9 * 3600));
        spec.timeEnd := Some(Wrap(spec.timeStart.value + 8 * 3600 - 1));
      }
    }
  }

  lemma WrapTwice(x: int, y: int)
    ensures Wrap(Wrap(x) - y) == Wrap(x - y)
  {
    var q := x / U64_LIMIT;
    assert x == U64_LIMIT * q + Wrap(x);
    WrapShift(x - y, q);
  }

  lemma WrapShift(x: int, q: int)
    ensures Wrap(x - U64_LIMIT * q) == Wrap(x)
  {
    var p, r := x / U64_LIMIT, x % U64_LIMIT;
    assert x - U64_LIMIT * q == U64_LIMIT * (p - q) + r;
  }

  lemma MentionsUnrolled(query: string)
    ensures MentionsAny(query, ["edit", "modif"]) <==> Contains(query, "edit") || Contains(query, "modif")
    ensures MentionsAny(query, ["website", "browser", "visit"]) <==>
            Contains(query, "website") || Contains(query, "browser") || Contains(query, "visit")
    ensures MentionsAny(query, ["clipboard", "copied", "copy"]) <==>
            Contains(query, "clipboard") || Contains(query, "copied") || Contains(query, "copy")
    ensures MentionsAny(query, ["window", "focus"]) <==> Contains(query, "window") || Contains(query, "focus")
  {
    var edits, visits := ["edit", "modif"], ["website", "browser", "visit"];
    var copies, focuses := ["clipboard", "copied", "copy"], ["window", "focus"];
    assert edits[0] == "edit" && edits[1] == "modif";
    assert visits[0] == "website" && visits[1] == "browser" && visits[2] == "visit";
    assert copies[0] == "clipboard" && copies[1] == "copied" && copies[2] == "copy";
    assert focuses[0] == "window" && focuses[1] == "focus";
  }

  method ResolveEventType(query: string, spec: QuerySpec)
    modifies spec`eventType
    ensures spec.eventType == if QueryType(query).Some? then QueryType(query) else old(spec.eventType)
  {
    MentionsUnrolled(query);
    if Contains(query, "file") {
      if Contains(query, "edit") || Contains(query, "modif") {
        spec.eventType := Some(FileModified);
      } else if Contains(query, "open") {
        spec.eventType := Some(FileOpened);
      }
    } else if Contains(query, "website") || Contains(query, "browser") || Contains(query, "visit") {
      spec.eventType := Some(BrowserVisit);
    } else if Contains(query, "clipboard") || Contains(query, "copied") || Contains(query, "copy") {
      spec.eventType := Some(ClipboardCopy);
    } else if Contains(query, "window") || Contains(query, "focus") {
      spec.eventType := Some(WindowFocus);
    } else if Contains(query, "screenshot") {
      spec.eventType := Some(ScreenshotCaptured);
    }
  }

  method CleanQueryWord(word: string) returns (clean: string)
    ensures clean == Clean(word)
  {
    clean := "";
    for i := 0 to |word|
      invariant clean == Clean(word[..i])
    {
      CleanAppend(word[..i], word[i]);
      assert word[..i] + [word[i]] == word[..i + 1];
      if IsAlnum(word[i]) {
        clean := clean + [word[i]];
      }
    }
    assert word[..|word|] == word;
  }

  method ExtractQueryKeywords(query: string, spec: QuerySpec)
    modifies spec`keywords
    ensures spec.keywords == old(spec.keywords) + QueryKeywords(query)
  {
    var word, pos := NextWord(query, 0);
    assert query[0..] == query;
    ghost var pending := Words(query);
    while word != []
      invariant pos <= |query|
      invariant pending == if word == [] then [] else [word] + Words(query[pos..])
      invariant spec.keywords + KeptWords(pending) == old(spec.keywords) + QueryKeywords(query)
      decreases |query| - pos, |word|
    {
      var clean := CleanQueryWord(word);
      KeepWord(spec.keywords, word, Words(query[pos..]));
      if clean != [] && |clean| > 1 && !IsStopWord(clean) {
        spec.keywords := spec.keywords + [clean];
      }
      pending := Words(query[pos..]);
      word, pos := NextWord(query, pos);
    }
  }

  ghost predicate IsSpecOf(spec: QuerySpec, query: string, now: Clock)
    reads spec
  {
    var lower := Lower(query);
    var w := QueryWindow(lower, now);
    && spec.keywords == QueryKeywords(lower)
    && spec.timeStart == (if w.Some? then Some(w.value.start) else None)
    && spec.timeEnd == (if w.Some? then Some(w.value.end) else None)
    && spec.eventType == QueryType(lower)
    && spec.application == None
  }

  method Parse(query: string, now: Clock) returns (spec: QuerySpec)
    ensures fresh(spec) && IsSpecOf(spec, query, now) && spec.rawQuery == query
  {
    spec := new QuerySpec(query);
    var lower := Lower(query);
    ResolveTimeExpression(lower, spec, now);
    ResolveEventType(lower, spec);
    ExtractQueryKeywords(lower, spec);
  }

  /** Queries that differ only in letter case are parsed alike. */
  lemma CaseDoesNotMatter(spec: QuerySpec, query: string, other: QuerySpec, query': string, now: Clock)
    requires IsSpecOf(spec, query, now) && IsSpecOf(other, query', now) && DifferOnlyInCase(query, query')
    ensures spec.keywords == other.keywords && spec.eventType == other.eventType
    ensures spec.timeStart == other.timeStart && spec.timeEnd == other.timeEnd
    ensures spec.application == other.application && PlanFor(query, now) == PlanFor(query', now)
  {
    LowerIsCanonical(query, query');
  }

  // ---- the plan ----

  datatype QueryPlan = QueryPlan(
    useKeywordIndex: bool, useTimeIndex: bool, useTypeFilter: bool, useAppIndex: bool,
    keywords: seq<string>, timeStart: u64, timeEnd: u64, typeFilter: EventType, appFilter: string)

  const EMPTY_PLAN := QueryPlan(false, false, false, false, [], 0, 0, Unknown, "")

  /** The plan of a query: its keywords, its window and its type; the parser sets no application. */
  ghost function PlanFor(query: string, now: Clock): QueryPlan {
    var lower := Lower(query);
    var keywords, w, kind := QueryKeywords(lower), QueryWindow(lower, now), QueryType(lower);
    QueryPlan(keywords != [], w.Some?, kind.Some?, false, keywords,
              if w.Some? then w.value.start else 0, if w.Some? then w.value.end else 0,
              if kind.Some? then kind.value else Unknown, "")
  }

  /** Each filter of the spec switches its index on and hands over its value, and nothing else. */
  method MakePlan(spec: QuerySpec) returns (plan: QueryPlan)
    ensures plan.useKeywordIndex <==> spec.keywords != []
    ensures plan.keywords == spec.keywords
    ensures plan.useTimeIndex <==> spec.timeStart.Some? && spec.timeEnd.Some?
    ensures plan.useTimeIndex ==> spec.timeStart == Some(plan.timeStart) && spec.timeEnd == Some(plan.timeEnd)
    ensures !plan.useTimeIndex ==> plan.timeStart == 0 && plan.timeEnd == 0
    ensures plan.useTypeFilter <==> spec.eventType.Some?
    ensures plan.useTypeFilter ==> spec.eventType == Some(plan.typeFilter)
    ensures !plan.useTypeFilter ==> plan.typeFilter == Unknown
    ensures plan.useAppIndex <==> spec.application.Some?
    ensures plan.useAppIndex ==> spec.application == Some(plan.appFilter)
    ensures !plan.useAppIndex ==> plan.appFilter == ""
  {
    plan := EMPTY_PLAN;
    if spec.keywords != [] {
      plan := plan.(useKeywordIndex := true);
      plan := plan.(keywords := spec.keywords);
    }
    if spec.timeStart.Some? && spec.timeEnd.Some? {
      plan := plan.(useTimeIndex := true);
      plan := plan.(timeStart := spec.timeStart.value);
      plan := plan.(timeEnd := spec.timeEnd.value);
    }
    if spec.eventType.Some? {
      plan := plan.(useTypeFilter := true);
      plan := plan.(typeFilter := spec.eventType.value);
    }
    if spec.application.Some? {
      plan := plan.(useAppIndex := true);
      plan := plan.(appFilter := spec.application.value);
    }
  }
}
