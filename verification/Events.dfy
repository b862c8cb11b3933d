/** The activity event and its keywords (activity_event.cpp). */
module Events {
  import opened Base
  import opened Text
  import Sorting

  datatype EventType =
    | FileOpened
    | FileModified
    | BrowserVisit
    | WindowFocus
    | ClipboardCopy
    | ScreenshotCaptured
    | Unknown

  datatype ActivityEvent = ActivityEvent(
    id: u64, timestamp: u64, kind: EventType, source: string, content: string, metadata: map<string, string>)

  function TypeName(kind: EventType): string {
    match kind
    case FileOpened => "FileOpened"
    case FileModified => "FileModified"
    case BrowserVisit => "BrowserVisit"
    case WindowFocus => "WindowFocus"
    case ClipboardCopy => "ClipboardCopy"
    case ScreenshotCaptured => "ScreenshotCaptured"
    case Unknown => "Unknown"
  }

  function ParseType(name: string): EventType {
    if name == "FileOpened" then FileOpened
    else if name == "FileModified" then FileModified
    else if name == "BrowserVisit" then BrowserVisit
    else if name == "WindowFocus" then WindowFocus
    else if name == "ClipboardCopy" then ClipboardCopy
    else if name == "ScreenshotCaptured" then ScreenshotCaptured
    else Unknown
  }

  /** The stored type text reads back as the type, and two types never share a text. */
  lemma TypeNameRoundTrip(kind: EventType)
    ensures ParseType(TypeName(kind)) == kind
    ensures forall other :: TypeName(other) == TypeName(kind) ==> other == kind
  {
    TypeNameReads(kind);
    forall other | TypeName(other) == TypeName(kind) ensures other == kind {
      TypeNameReads(other);
    }
  }

  lemma TypeNameReads(kind: EventType)
    ensures ParseType(TypeName(kind)) == kind
  {
    // The six names differ in length or in one of their first letters.
    assert "FileOpened"[0] == 'F' && "BrowserVisit"[0] == 'B' && "WindowFocus"[0] == 'W';
    assert "ClipboardCopy"[0] == 'C' && "ScreenshotCaptured"[0] == 'S' && "Unknown"[0] == 'U';
  }

  /** The texts that stand for the types; any other text reads as the unknown type. */
  lemma TypeTexts(name: string)
    ensures ParseType("FileOpened") == FileOpened && ParseType("FileModified") == FileModified
    ensures ParseType("BrowserVisit") == BrowserVisit && ParseType("WindowFocus") == WindowFocus
    ensures ParseType("ClipboardCopy") == ClipboardCopy && ParseType("ScreenshotCaptured") == ScreenshotCaptured
    ensures ParseType(name) != Unknown ==> TypeName(ParseType(name)) == name
    ensures TypeName(Unknown) == "Unknown"
  {
    TypeNameReads(FileOpened);
    TypeNameReads(FileModified);
    TypeNameReads(BrowserVisit);
    TypeNameReads(WindowFocus);
    TypeNameReads(ClipboardCopy);
    TypeNameReads(ScreenshotCaptured);
  }

  // ---- keywords ----

  predicate IsKeyword(clean: string) {
    |clean| > 1
  }

  /** Cleaned lower-case words of `text` that are longer than one character. */
  function TextKeywords(text: string): set<string> {
    WordKeywords(Words(text))
  }

  function WordKeywords(words: seq<string>): set<string> {
    set w | w in words && IsKeyword(Clean(w)) :: Lower(Clean(w))
  }

  lemma WordKeywordsCons(w: string, words: seq<string>)
    ensures WordKeywords([w] + words) ==
            (if IsKeyword(Clean(w)) then {Lower(Clean(w))} else {}) + WordKeywords(words)
  {
  }

  /** What an event is indexed under. */
  function Keywords(e: ActivityEvent): set<string> {
    TextKeywords(e.content) + TextKeywords(e.source) + {Lower(TypeName(e.kind))}
  }

  /** An event is found under its type, and under the cleaned and lowered form of each word of its content
      and source that keeps more than one character; under nothing else. */
  lemma KeywordsAre(e: ActivityEvent, k: string)
    ensures k in Keywords(e) <==>
              || k == Lower(TypeName(e.kind))
              || exists w :: (HasWord(e.content, w) || HasWord(e.source, w)) && |Clean(w)| > 1 && k == Lower(Clean(w))
    ensures k in Keywords(e) ==> NoUpperCase(k)
  {
    forall w ensures w in Words(e.content) <==> HasWord(e.content, w) {
      WordsAreMaximalRuns(e.content, w);
    }
    forall w ensures w in Words(e.source) <==> HasWord(e.source, w) {
      WordsAreMaximalRuns(e.source, w);
    }
  }

  /** The keyword that comes from the type. */
  lemma TypeKeyword(kind: EventType)
    ensures Lower(TypeName(kind)) ==
            match kind
            case FileOpened => "fileopened"
            case FileModified => "filemodified"
            case BrowserVisit => "browservisit"
            case WindowFocus => "windowfocus"
            case ClipboardCopy => "clipboardcopy"
            case ScreenshotCaptured => "screenshotcaptured"
            case Unknown => "unknown"
  {
  }

  ghost predicate StrictlySorted(s: seq<string>) {
    && (forall i, j | 0 <= i < j < |s| :: LexLe(s[i], s[j]))
    && (forall i, j | 0 <= i < j < |s| :: s[i] != s[j])
  }

  function Elements<T>(s: seq<T>): set<T> {
    set x | x in s
  }

  /** The letters and digits of one word, lower-cased one by one. */
  method CleanWord(word: string) returns (clean: string)
    ensures clean == Lower(Clean(word))
    ensures NoUpperCase(clean) && DifferOnlyInCase(clean, Clean(word))
  {
    clean := "";
    for i := 0 to |word|
      invariant clean == Lower(Clean(word[..i]))
    {
      CleanAppend(word[..i], word[i]);
      assert word[..i] + [word[i]] == word[..i + 1];
      if IsAlnum(word[i]) {
        assert Lower(Clean(word[..i]) + [word[i]]) == Lower(Clean(word[..i])) + [ToLower(word[i])];
        clean := clean + [ToLower(word[i])];
      }
    }
    assert word[..|word|] == word;
    LowerChangesCaseOnly(Clean(word));
  }

  method Tokenize(text: string, keywords: seq<string>) returns (r: seq<string>)
    ensures Elements(r) == Elements(keywords) + TextKeywords(text)
  {
    r := keywords;
    var word, pos := NextWord(text, 0);
    assert text[0..] == text;
    ghost var pending := Words(text);
    while word != []
      invariant pos <= |text|
      invariant pending == if word == [] then [] else [word] + Words(text[pos..])
      invariant Elements(r) + WordKeywords(pending) == Elements(keywords) + TextKeywords(text)
      decreases |text| - pos, |word|
    {
      var clean := CleanWord(word);
      WordKeywordsCons(word, Words(text[pos..]));
      if |clean| > 1 {
        assert Elements(r + [clean]) == Elements(r) + {clean};
        r := r + [clean];
      }
      pending := Words(text[pos..]);
      word, pos := NextWord(text, pos);
    }
  }

  lemma AppendGreater(r: seq<string>, x: string)
    requires StrictlySorted(r) && (r != [] ==> LexLe(r[|r| - 1], x) && r[|r| - 1] != x)
    ensures StrictlySorted(r + [x])
  {
    forall k | 0 <= k < |r| ensures LexLe(r[k], x) && r[k] != x {
      if k < |r| - 1 {
        LexTransitive(r[k], r[|r| - 1], x);
        if r[k] == x {
          LexAntisymmetric(r[|r| - 1], x);
        }
      }
    }
  }

  lemma ElementsAppend<T>(s: seq<T>, x: T)
    ensures Elements(s + [x]) == Elements(s) + {x}
  {
  }

  /** `std::unique` followed by `erase`. */
  method Unique(s: seq<string>) returns (r: seq<string>)
    requires forall i, j | 0 <= i < j < |s| :: LexLe(s[i], s[j])
    ensures StrictlySorted(r) && Elements(r) == Elements(s)
  {
    r := [];
    for i := 0 to |s|
      invariant StrictlySorted(r) && Elements(r) == Elements(s[..i])
      invariant if i == 0 then r == [] else r != [] && r[|r| - 1] == s[i - 1]
    {
      assert s[..i + 1] == s[..i] + [s[i]];
      ElementsAppend(s[..i], s[i]);
      ElementsAppend(r, s[i]);
      if r == [] || r[|r| - 1] != s[i] {
        AppendGreater(r, s[i]);
        r := r + [s[i]];
      } else {
        assert s[i] in Elements(r);
      }
    }
    assert s[..|s|] == s;
  }

  /** `extract_keywords`: strictly sorted, and exactly the keywords of the event. */
  method ExtractKeywords(e: ActivityEvent) returns (keywords: seq<string>)
    ensures StrictlySorted(keywords)
    ensures Elements(keywords) == Keywords(e)
  {
    keywords := Tokenize(e.content, []);
    keywords := Tokenize(e.source, keywords);
    ghost var texts := Elements(keywords);
    keywords := keywords + [Lower(TypeName(e.kind))];
    assert Elements(keywords) == texts + {Lower(TypeName(e.kind))};
    ghost var all := keywords;
    LexIsTotalPreorder();
    keywords := Sorting.StdSort(keywords, LexLe);
    Sorting.SameElements(keywords, all);
    assert Elements(keywords) == Elements(all);
    keywords := Unique(keywords);
  }

  lemma LexIsTotalPreorder()
    ensures Sorting.TotalPreorder(LexLe)
  {
    forall x, y ensures LexLe(x, y) || LexLe(y, x) {
      LexTotal(x, y);
    }
    forall x, y, z | LexLe(x, y) && LexLe(y, z) ensures LexLe(x, z) {
      LexTransitive(x, y, z);
    }
  }

  // ---- the order of events in time ----

  predicate NotLater(a: ActivityEvent, b: ActivityEvent) {
    a.timestamp <= b.timestamp
  }

  predicate NotEarlier(a: ActivityEvent, b: ActivityEvent) {
    a.timestamp >= b.timestamp
  }

  ghost predicate NewestFirst(s: seq<ActivityEvent>) {
    forall i, j | 0 <= i < j < |s| :: s[i].timestamp >= s[j].timestamp
  }

  ghost predicate OldestFirst(s: seq<ActivityEvent>) {
    forall i, j | 0 <= i < j < |s| :: s[i].timestamp <= s[j].timestamp
  }

  ghost predicate NoDuplicates<T>(s: seq<T>) {
    forall i, j | 0 <= i < j < |s| :: s[i] != s[j]
  }
}
