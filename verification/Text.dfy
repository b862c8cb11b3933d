/** Character classes of the C locale and the string operations the program builds on. */
module Text {
  import opened Base

  predicate IsSpace(c: char) {
    c in {' ', '\t', '\n', '\r', 11 as char, 12 as char}
  }

  predicate IsUpper(c: char) { 'A' <= c <= 'Z' }

  predicate IsAlnum(c: char) {
    'a' <= c <= 'z' || 'A' <= c <= 'Z' || '0' <= c <= '9'
  }

  function ToLower(c: char): char {
    if IsUpper(c) then (c as int + 32) as char else c
  }

  function Lower(s: string): (r: string)
    ensures |r| == |s|
  {
    seq(|s|, i requires 0 <= i < |s| => ToLower(s[i]))
  }

  // ---- letter case ----

  /** The same character, or an upper-case letter and the lower-case letter at its place in the alphabet. */
  predicate SameLetter(c: char, d: char) {
    || c == d
    || ('A' <= c <= 'Z' && 'a' <= d <= 'z' && c as int - 'A' as int == d as int - 'a' as int)
    || ('a' <= c <= 'z' && 'A' <= d <= 'Z' && c as int - 'a' as int == d as int - 'A' as int)
  }

  predicate DifferOnlyInCase(a: string, b: string) {
    |a| == |b| && forall i | 0 <= i < |a| :: SameLetter(a[i], b[i])
  }

  predicate NoUpperCase(s: string) {
    forall i | 0 <= i < |s| :: !('A' <= s[i] <= 'Z')
  }

  /** What lowering does: no upper-case letter is left, and nothing but the case of letters has changed. */
  lemma LowerChangesCaseOnly(s: string)
    ensures NoUpperCase(Lower(s)) && DifferOnlyInCase(Lower(s), s)
  {
  }

  /** There is only one such text, so two texts are lowered alike exactly when they differ in nothing
      but letter case. */
  lemma LowerIsCanonical(a: string, b: string)
    ensures Lower(a) == Lower(b) <==> DifferOnlyInCase(a, b)
    ensures NoUpperCase(a) && DifferOnlyInCase(a, b) ==> a == Lower(b)
  {
    if DifferOnlyInCase(a, b) {
      forall i | 0 <= i < |a| ensures Lower(a)[i] == Lower(b)[i] {
        assert SameLetter(a[i], b[i]);
      }
    }
    if Lower(a) == Lower(b) {
      forall i | 0 <= i < |a| ensures SameLetter(a[i], b[i]) {
        assert Lower(a)[i] == Lower(b)[i];
      }
    }
  }

  /** Lowering twice is lowering once. */
  lemma LowerIdempotent(s: string)
    ensures Lower(Lower(s)) == Lower(s)
  {
  }

  lemma LowerConcat(a: string, b: string)
    ensures Lower(a + b) == Lower(a) + Lower(b)
  {
  }

  predicate OccursAt(text: string, part: string, i: int) {
    0 <= i <= |text| - |part| && text[i..i + |part|] == part
  }

  /** `text.find(part) != npos`. */
  predicate Contains(text: string, part: string) {
    exists i | 0 <= i <= |text| - |part| :: OccursAt(text, part, i)
  }

  /** A text contains whatever stands anywhere in it. */
  lemma ContainsIff(text: string, part: string)
    ensures Contains(text, part) <==> exists before, after :: text == before + part + after
  {
    if Contains(text, part) {
      var i :| 0 <= i <= |text| - |part| && OccursAt(text, part, i);
      assert text == text[..i] + part + text[i + |part|..];
    }
    if exists before, after :: text == before + part + after {
      var before, after :| text == before + part + after;
      assert OccursAt(text, part, |before|);
    }
  }

  lemma ContainsItself(s: string)
    ensures Contains(s, s)
  {
    assert OccursAt(s, s, 0);
  }

  /** Letters and digits of the C locale, and its six white-space characters. */
  lemma CharacterTables(c: char)
    ensures IsAlnum(c) <==> c in {
              '0', '1', '2', '3', '4', '5', '6', '7', '8', '9',
              'a', 'b', 'c', 'd', 'e', 'f', 'g', 'h', 'i', 'j', 'k', 'l', 'm',
              'n', 'o', 'p', 'q', 'r', 's', 't', 'u', 'v', 'w', 'x', 'y', 'z',
              'A', 'B', 'C', 'D', 'E', 'F', 'G', 'H', 'I', 'J', 'K', 'L', 'M',
              'N', 'O', 'P', 'Q', 'R', 'S', 'T', 'U', 'V', 'W', 'X', 'Y', 'Z'}
    ensures IsSpace(c) <==> c as int == 32 || 9 <= c as int <= 13
  {
  }

  /** The letters and digits of a word, in order. */
  function Clean(w: string): (r: string)
    ensures forall c | c in r :: IsAlnum(c) && c in w
  {
    if w == [] then []
    else (if IsAlnum(w[0]) then [w[0]] else []) + Clean(w[1..])
  }

  lemma {:induction false} CleanAppend(w: string, c: char)
    ensures Clean(w + [c]) == Clean(w) + (if IsAlnum(c) then [c] else [])
  {
    if w != [] {
      assert (w + [c])[1..] == w[1..] + [c];
      CleanAppend(w[1..], c);
    }
  }

  /** Cleaning takes a word apart at any place: the characters kept stay in order. */
  lemma {:induction false} CleanConcat(a: string, b: string)
    ensures Clean(a + b) == Clean(a) + Clean(b)
  {
    if a == [] {
      assert a + b == b;
    } else {
      assert (a + b)[1..] == a[1..] + b;
      CleanConcat(a[1..], b);
    }
  }

  lemma {:induction false} CleanIdempotent(w: string)
    ensures Clean(Clean(w)) == Clean(w)
  {
    if w != [] {
      CleanIdempotent(w[1..]);
      if IsAlnum(w[0]) {
        assert ([w[0]] + Clean(w[1..]))[1..] == Clean(w[1..]);
        assert Clean(Clean(w)) == [w[0]] + Clean(Clean(w[1..]));
      } else {
        assert Clean(w) == Clean(w[1..]);
      }
    }
  }

  /** Cleaning and lowering commute, so both tokenisers of the program clean a word alike. */
  lemma {:induction false} CleanLower(w: string)
    ensures Clean(Lower(w)) == Lower(Clean(w))
  {
    if w != [] {
      assert Lower(w)[1..] == Lower(w[1..]);
      CleanLower(w[1..]);
      var head := if IsAlnum(w[0]) then [w[0]] else [];
      assert Clean(w) == head + Clean(w[1..]);
      LowerConcat(head, Clean(w[1..]));
      assert Clean(Lower(w)) == Lower(head) + Clean(Lower(w[1..]));
    }
  }

  /** The longest prefix without white space. */
  function WordPrefix(s: string): (w: string)
    ensures |w| <= |s| && w == s[..|w|]
    ensures forall c | c in w :: !IsSpace(c)
    ensures |w| < |s| ==> IsSpace(s[|w|])
  {
    if s == [] || IsSpace(s[0]) then [] else [s[0]] + WordPrefix(s[1..])
  }

  /** The words that repeated `stream >> word` extracts. */
  function Words(s: string): (ws: seq<string>)
    decreases |s|
  {
    if s == [] then []
    else if IsSpace(s[0]) then Words(s[1..])
    else var w := WordPrefix(s); [w] + Words(s[|w|..])
  }

  /** `w` stands at `i..j`, delimited by white space or the ends of `s`, with none inside. */
  ghost predicate IsWordAt(s: string, i: int, j: int, w: string) {
    && 0 <= i < j <= |s| && s[i..j] == w
    && (forall k | i <= k < j :: !IsSpace(s[k]))
    && (i > 0 ==> IsSpace(s[i - 1]))
    && (j < |s| ==> IsSpace(s[j]))
  }

  ghost predicate HasWord(s: string, w: string) {
    exists i, j :: IsWordAt(s, i, j, w)
  }

  /** A word of `s` that does not start in the first `n` characters is a word of the rest. */
  lemma WordOfRest(s: string, n: nat, w: string, i: int, j: int)
    requires 0 < n <= |s| && (IsSpace(s[n - 1]) || n == |s| || IsSpace(s[n]))
    requires i >= n
    ensures IsWordAt(s, i, j, w) ==> IsWordAt(s[n..], i - n, j - n, w)
  {
    if IsWordAt(s, i, j, w) {
      assert s[n..][i - n..j - n] == s[i..j];
    }
  }

  lemma WordOfWhole(s: string, n: nat, w: string, i: int, j: int)
    requires 0 < n <= |s| && (IsSpace(s[n - 1]) || n == |s| || IsSpace(s[n]))
    ensures IsWordAt(s[n..], i, j, w) ==> IsWordAt(s, i + n, j + n, w)
  {
    if IsWordAt(s[n..], i, j, w) {
      assert s[n..][i..j] == s[i + n..j + n];
      assert forall k | i + n <= k < j + n :: s[k] == s[n..][k - n];
    }
  }

  lemma HasWordSplit(s: string, n: nat, w: string)
    requires 0 < n <= |s| && (IsSpace(s[n - 1]) || n == |s| || IsSpace(s[n]))
    ensures HasWord(s[n..], w) ==> HasWord(s, w)
    ensures HasWord(s, w) && !HasWord(s[n..], w) ==> exists i, j :: i < n && IsWordAt(s, i, j, w)
  {
    if HasWord(s[n..], w) {
      var i, j :| IsWordAt(s[n..], i, j, w);
      WordOfWhole(s, n, w, i, j);
    } else if HasWord(s, w) {
      var i, j :| IsWordAt(s, i, j, w);
      if i >= n {
        WordOfRest(s, n, w, i, j);
      }
    }
  }

  /** Words are exactly the maximal runs without white space. */
  lemma {:induction false} WordsAreMaximalRuns(s: string, w: string)
    ensures w in Words(s) <==> HasWord(s, w)
    decreases |s|
  {
    if s == [] {
    } else if IsSpace(s[0]) {
      HasWordSplit(s, 1, w);
      WordsAreMaximalRuns(s[1..], w);
    } else {
      var first := WordPrefix(s);
      HasWordSplit(s, |first|, w);
      WordsAreMaximalRuns(s[|first|..], w);
      assert IsWordAt(s, 0, |first|, first);
      forall i, j | i < |first| && IsWordAt(s, i, j, w) ensures w == first {
        assert i == 0 && j == |first|;
      }
    }
  }

  ghost predicate NoSpace(w: string) {
    forall k | 0 <= k < |w| :: !IsSpace(w[k])
  }

  lemma WordThen(w: string, rest: string)
    requires w != [] && NoSpace(w) && (rest != [] ==> IsSpace(rest[0]))
    ensures Words(w + rest) == [w] + Words(rest)
  {
    var s := w + rest;
    WordPrefixUnique(s, |w|);
    assert s[..|w|] == w && s[|w|..] == rest;
  }

  lemma WordThenBoth(w: string, rest: string, t: string)
    requires w != [] && NoSpace(w) && (rest != [] ==> IsSpace(rest[0])) && t != [] && IsSpace(t[0])
    requires Words(rest + t) == Words(rest) + Words(t)
    ensures Words(w + rest + t) == Words(w + rest) + Words(t)
  {
    WordThen(w, rest);
    WordThen(w, rest + t);
    Associative(w, rest, t);
    Associative([w], Words(rest), Words(t));
  }

  lemma SpaceThenBoth(c: char, rest: string, t: string)
    requires IsSpace(c) && Words(rest + t) == Words(rest) + Words(t)
    ensures Words([c] + rest + t) == Words([c] + rest) + Words(t)
  {
    SpaceThen([c], rest);
    SpaceThen([c], rest + t);
    Associative([c], rest, t);
  }

  /** The words of `a`, if `a` is not empty: a space or a word first. */
  lemma FirstPiece(a: string) returns (w: string, rest: string)
    requires a != []
    ensures a == w + rest && w != []
    ensures (|w| == 1 && IsSpace(w[0])) || (NoSpace(w) && (rest != [] ==> IsSpace(rest[0])))
  {
    if IsSpace(a[0]) {
      w, rest := a[..1], a[1..];
    } else {
      w := WordPrefix(a);
      rest := a[|w|..];
      assert forall k | 0 <= k < |w| :: w[k] in w;
    }
  }

  lemma {:induction false} WordsBeforeSpace(a: string, t: string)
    requires t != [] && IsSpace(t[0])
    ensures Words(a + t) == Words(a) + Words(t)
    decreases |a|
  {
    if a == [] {
      assert a + t == t;
    } else {
      var w, rest := FirstPiece(a);
      WordsBeforeSpace(rest, t);
      if NoSpace(w) {
        WordThenBoth(w, rest, t);
      } else {
        assert w == [w[0]];
        SpaceThenBoth(w[0], rest, t);
      }
    }
  }

  /** White space separates words: they come in order, with repetitions. */
  lemma WordsInOrder(a: string, c: char, b: string)
    requires IsSpace(c)
    ensures Words(a + [c] + b) == Words(a) + Words(b)
  {
    var t := [c] + b;
    assert a + [c] + b == a + t && t[1..] == b;
    WordsBeforeSpace(a, t);
  }

  /** A text without white space is one word. */
  lemma OneWord(s: string)
    requires s != [] && NoSpace(s)
    ensures Words(s) == [s]
  {
    WordThen(s, []);
    assert s + [] == s;
  }

  /** What is left of a cleaned word is one word. */
  lemma CleanedIsWord(w: string)
    requires Clean(w) != []
    ensures Clean(w) in Words(Clean(w))
  {
    var k := Clean(w);
    assert forall i | 0 <= i < |k| :: k[i] in k && !IsSpace(k[i]);
    OneWord(k);
  }

  /** White space survives lowering, so lowering a text lowers its words one by one. */
  lemma {:induction false} WordsLower(s: string)
    ensures |Words(Lower(s))| == |Words(s)|
    ensures forall k | 0 <= k < |Words(s)| :: Words(Lower(s))[k] == Lower(Words(s)[k])
    decreases |s|
  {
    if s != [] {
      var w, rest := FirstPiece(s);
      WordsLower(rest);
      LowerConcat(w, rest);
      if NoSpace(w) {
        WordThen(w, rest);
        WordThen(Lower(w), Lower(rest));
      } else {
        SpaceThen(w, rest);
        SpaceThen(Lower(w), Lower(rest));
      }
    }
  }

  lemma SpaceThen(w: string, rest: string)
    requires |w| == 1 && IsSpace(w[0])
    ensures Words(w + rest) == Words(rest)
  {
    assert (w + rest)[1..] == rest;
  }

  lemma {:induction false} SkipSpaces(s: string, n: nat)
    requires n <= |s| && forall k | 0 <= k < n :: IsSpace(s[k])
    ensures Words(s) == Words(s[n..])
  {
    if n > 0 {
      SkipSpaces(s[1..], n - 1);
      assert s[1..][n - 1..] == s[n..];
    } else {
      assert s[0..] == s;
    }
  }

  lemma WordPrefixUnique(s: string, n: nat)
    requires n <= |s| && (forall k | 0 <= k < n :: !IsSpace(s[k])) && (n < |s| ==> IsSpace(s[n]))
    ensures WordPrefix(s) == s[..n]
  {
  }

  lemma SpacesFrom(text: string, pos: nat, start: nat)
    requires pos <= start <= |text| && forall k | pos <= k < start :: IsSpace(text[k])
    ensures Words(text[pos..]) == Words(text[start..])
  {
    SkipSpaces(text[pos..], start - pos);
    assert text[pos..][start - pos..] == text[start..];
  }

  lemma WordAt(text: string, start: nat, next: nat)
    requires start <= next <= |text| && (forall k | start <= k < next :: !IsSpace(text[k]))
    requires next < |text| ==> IsSpace(text[next])
    requires start < |text| ==> start < next
    ensures Words(text[start..]) == if start == next then [] else [text[start..next]] + Words(text[next..])
  {
    var rest := text[start..];
    assert rest[..next - start] == text[start..next];
    WordPrefixUnique(rest, next - start);
    assert rest[next - start..] == text[next..];
  }

  /** `stream >> word` on the part of `text` from `pos` on; an empty word is the end of the stream. */
  method NextWord(text: string, pos: nat) returns (word: string, next: nat)
    requires pos <= |text|
    ensures pos <= next <= |text|
    ensures word == [] ==> Words(text[pos..]) == []
    ensures word != [] ==> pos < next && Words(text[pos..]) == [word] + Words(text[next..])
  {
    next := pos;
    while next < |text| && IsSpace(text[next])
      invariant pos <= next <= |text|
      invariant forall k | pos <= k < next :: IsSpace(text[k])
    {
      next := next + 1;
    }
    var start := next;
    SpacesFrom(text, pos, start);
    while next < |text| && !IsSpace(text[next])
      invariant start <= next <= |text|
      invariant forall k | start <= k < next :: !IsSpace(text[k])
    {
      next := next + 1;
    }
    word := text[start..next];
    WordAt(text, start, next);
  }

  predicate IsSeparator(c: char) { c == '/' || c == '\\' }

  /** What `find_last_of("/\\")` followed by `substr(pos + 1)` leaves. */
  function BaseName(path: string): string {
    if path == [] then []
    else
      var last := path[|path| - 1];
      if IsSeparator(last) then [] else BaseName(path[..|path| - 1]) + [last]
  }

  /** `r` is the longest suffix of `path` without a separator. */
  ghost predicate IsBaseName(path: string, r: string) {
    && |r| <= |path| && r == path[|path| - |r|..]
    && '/' !in r && '\\' !in r
    && (|r| < |path| ==> path[|path| - |r| - 1] in {'/', '\\'})
  }

  lemma {:induction false} BaseNameIsSuffix(path: string)
    ensures IsBaseName(path, BaseName(path))
  {
    if path != [] && !IsSeparator(path[|path| - 1]) {
      BaseNameIsSuffix(path[..|path| - 1]);
    }
  }

  /** `find_last_of("/\\")` as the scan from the back, then `substr`. */
  method StripDirectories(path: string) returns (r: string)
    ensures r == BaseName(path)
  {
    var pos := |path|;
    while pos > 0 && !IsSeparator(path[pos - 1])
      invariant 0 <= pos <= |path|
      invariant forall k | pos <= k < |path| :: !IsSeparator(path[k])
    {
      pos := pos - 1;
    }
    r := path[pos..];
    BaseNameUnique(path, r);
  }

  lemma BaseNameUnique(path: string, r: string)
    requires IsBaseName(path, r)
    ensures r == BaseName(path)
  {
    BaseNameIsSuffix(path);
  }

  /** Lexicographic order of `std::string`. */
  predicate LexLe(a: string, b: string) {
    a == [] || (b != [] && (a[0] < b[0] || (a[0] == b[0] && LexLe(a[1..], b[1..]))))
  }

  /** The first difference decides, and a prefix comes first. */
  lemma {:induction false} LexByFirstDifference(a: string, b: string, i: nat)
    requires i <= |a| && i <= |b| && a[..i] == b[..i]
    ensures i == |a| ==> LexLe(a, b)
    ensures i < |a| && i < |b| && a[i] < b[i] ==> LexLe(a, b) && !LexLe(b, a)
    decreases i
  {
    if i > 0 {
      assert a[0] == a[..i][0] == b[..i][0] == b[0];
      assert a[1..][..i - 1] == a[..i][1..] && b[1..][..i - 1] == b[..i][1..];
      LexByFirstDifference(a[1..], b[1..], i - 1);
    }
  }

  lemma {:induction false} LexAntisymmetric(a: string, b: string)
    requires LexLe(a, b) && LexLe(b, a)
    ensures a == b
  {
    if a != [] && b != [] {
      LexAntisymmetric(a[1..], b[1..]);
      assert a == [a[0]] + a[1..] && b == [b[0]] + b[1..];
    }
  }

  lemma {:induction false} LexTotal(a: string, b: string)
    ensures LexLe(a, b) || LexLe(b, a)
  {
    if a != [] && b != [] && a[0] == b[0] {
      LexTotal(a[1..], b[1..]);
    }
  }

  lemma {:induction false} LexTransitive(a: string, b: string, c: string)
    requires LexLe(a, b) && LexLe(b, c)
    ensures LexLe(a, c)
  {
    if a != [] && a[0] == b[0] == c[0] {
      LexTransitive(a[1..], b[1..], c[1..]);
    }
  }
}
