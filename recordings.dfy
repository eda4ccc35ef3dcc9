/** The recording index of RecordingManager.java: where a recording's files
    live, the text a recording's result.json reads as, the newest-first
    listing and the keyword search with its previews. The file system is
    abstracted: a directory listing, a parsed result file and the text each
    recording loads are inputs. */
module Recordings {
  import opened Wrappers
  import opened Strings
  import opened Transcript

  // ---------------------------------------------------------------------
  // Paths.

  const RECORDINGS_DIR: string := "recordings"
  const AUDIO_FILE: string := "audio.pcm"
  const RESULT_FILE: string := "result.json"

  /** new File(dir, name).getAbsolutePath() for an absolute, normalised `dir`. */
  function Child(dir: string, name: string): string {
    dir + "/" + name
  }

  /** The recordings root under the app's files directory. */
  function RecordingsRoot(filesDir: string): string {
    Child(filesDir, RECORDINGS_DIR)
  }

  /** getAudioPath: <root>/<name>/audio.pcm. */
  function AudioPath(filesDir: string, name: string): string {
    Child(Child(RecordingsRoot(filesDir), name), AUDIO_FILE)
  }

  /** getResultPath: <root>/<name>/result.json. */
  function ResultPath(filesDir: string, name: string): string {
    Child(Child(RecordingsRoot(filesDir), name), RESULT_FILE)
  }

  /** Equal strings with equal prefixes and suffixes have equal middles. */
  lemma SameMiddle(p: string, a: string, b: string, s: string)
    requires p + a + s == p + b + s
    ensures a == b
  {
    var x, y := p + a + s, p + b + s;
    assert |a| == |b|;
    assert a == x[|p|..|p| + |a|];
    assert b == y[|p|..|p| + |b|];
  }

  /** Every recording has its own audio file and its own result file, and
      the audio file of one recording is never the result file of another. */
  lemma PathsDistinct(filesDir: string, a: string, b: string)
    ensures AudioPath(filesDir, a) == AudioPath(filesDir, b) ==> a == b
    ensures ResultPath(filesDir, a) == ResultPath(filesDir, b) ==> a == b
    ensures AudioPath(filesDir, a) != ResultPath(filesDir, b)
  {
    var root := RecordingsRoot(filesDir) + "/";
    if AudioPath(filesDir, a) == AudioPath(filesDir, b) {
      assert AudioPath(filesDir, a) == root + a + "/audio.pcm";
      assert AudioPath(filesDir, b) == root + b + "/audio.pcm";
      SameMiddle(root, a, b, "/audio.pcm");
    }
    if ResultPath(filesDir, a) == ResultPath(filesDir, b) {
      assert ResultPath(filesDir, a) == root + a + "/result.json";
      assert ResultPath(filesDir, b) == root + b + "/result.json";
      SameMiddle(root, a, b, "/result.json");
    }
    var x, y := AudioPath(filesDir, a), ResultPath(filesDir, b);
    assert x[|x| - 1] == 'm' && y[|y| - 1] == 'n';
  }

  // ---------------------------------------------------------------------
  // loadResultText.

  /** The words of a result file, each "▁" read as a space, run together. */
  function WordsText(words: seq<string>): string {
    if words == [] then "" else WordsText(words[..|words| - 1]) + Piece(words[|words| - 1])
  }

  /** The "w" field of every record. */
  function WordsOf(ts: seq<Token>): (ws: seq<string>)
    ensures |ws| == |ts| && forall i :: 0 <= i < |ts| ==> ws[i] == ts[i].word
  {
    if ts == [] then [] else WordsOf(ts[..|ts| - 1]) + [ts[|ts| - 1].word]
  }

  /** A recording's search text is its transcript's rendered text: the same
      pieces in the same order. */
  lemma {:induction false} WordsTextIsRender(ts: seq<Token>)
    ensures WordsText(WordsOf(ts)) == Render(ts)
  {
    if ts != [] {
      var init := ts[..|ts| - 1];
      WordsTextIsRender(init);
      assert WordsOf(ts)[..|ts| - 1] == WordsOf(init);
    }
  }

  /** loadResultText: `words` holds the "w" field of every record of
      result.json, or None when the file is missing or does not parse (the
      method then catches the exception). */
  method LoadResultText(words: Option<seq<string>>) returns (text: string)
    ensures words.None? ==> text == ""
    ensures words.Some? ==> text == Trim(WordsText(words.value))
    ensures text != "" ==> !IsTrimmable(text[0]) && !IsTrimmable(text[|text| - 1])
  {
    if words.None? {
      return "";
    }
    var ws := words.value;
    var sb := "";
    var i := 0;
    while i < |ws|
      invariant 0 <= i <= |ws|
      invariant sb == WordsText(ws[..i])
    {
      if ws[i] == WORD_BOUNDARY {
        sb := sb + " ";
      } else {
        sb := sb + ws[i];
      }
      assert ws[..i + 1][..i] == ws[..i];
      i := i + 1;
    }
    assert ws[..i] == ws;
    TrimSpec(sb);
    text := Trim(sb);
  }

  // ---------------------------------------------------------------------
  // listRecordings: the directory names in reverse lexicographic order.

  /** String.compareTo(a, b) < 0: at the first differing position a's char
      is smaller, or a is a proper prefix of b. */
  predicate LexLess(a: string, b: string)
    decreases |a|
  {
    if a == [] then b != []
    else if b == [] then false
    else if a[0] != b[0] then a[0] < b[0]
    else LexLess(a[1..], b[1..])
  }

  lemma {:induction false} LexLessIrreflexive(a: string)
    ensures !LexLess(a, a)
    decreases |a|
  {
    if a != [] {
      LexLessIrreflexive(a[1..]);
    }
  }

  lemma {:induction false} LexLessTransitive(a: string, b: string, c: string)
    requires LexLess(a, b) && LexLess(b, c)
    ensures LexLess(a, c)
    decreases |a|
  {
    if a != [] && b != [] && c != [] && a[0] == b[0] && b[0] == c[0] {
      LexLessTransitive(a[1..], b[1..], c[1..]);
    }
  }

  /** Distinct strings are ordered one way or the other. */
  lemma {:induction false} LexLessTotal(a: string, b: string)
    ensures a == b || LexLess(a, b) || LexLess(b, a)
    decreases |a|
  {
    if a != [] && b != [] && a[0] == b[0] {
      LexLessTotal(a[1..], b[1..]);
      if a[1..] == b[1..] {
        assert a == [a[0]] + a[1..] && b == [b[0]] + b[1..];
      }
    }
  }

  /** Collections.reverseOrder(): no name sorts before a name after it. */
  predicate Descending(names: seq<string>) {
    forall i, j :: 0 <= i < j < |names| ==> !LexLess(names[i], names[j])
  }

  /** Inserting `x` before the first name that sorts before it keeps the
      list in reverse order. */
  method InsertDescending(sorted: seq<string>, x: string) returns (r: seq<string>)
    requires Descending(sorted)
    ensures Descending(r) && multiset(r) == multiset(sorted) + multiset{x}
  {
    var i := 0;
    while i < |sorted| && !LexLess(sorted[i], x)
      invariant 0 <= i <= |sorted|
      invariant forall k :: 0 <= k < i ==> !LexLess(sorted[k], x)
    {
      i := i + 1;
    }
    r := sorted[..i] + [x] + sorted[i..];
    assert sorted[..i] + sorted[i..] == sorted;
    InsertKeepsDescending(sorted, x, i);
  }

  /** `x` placed after the names that do not sort before it and before the
      first one that does leaves the list in reverse order. */
  lemma InsertKeepsDescending(sorted: seq<string>, x: string, i: int)
    requires Descending(sorted) && 0 <= i <= |sorted|
    requires forall k :: 0 <= k < i ==> !LexLess(sorted[k], x)
    requires i < |sorted| ==> LexLess(sorted[i], x)
    ensures Descending(sorted[..i] + [x] + sorted[i..])
  {
    var r := sorted[..i] + [x] + sorted[i..];
    forall k | i <= k < |sorted| ensures !LexLess(x, sorted[k]) {
      if LexLess(x, sorted[k]) {
        LexLessTransitive(sorted[i], x, sorted[k]);
        LexLessIrreflexive(sorted[i]);
      }
    }
    forall p, q | 0 <= p < q < |r| ensures !LexLess(r[p], r[q]) {
      if q < i {
        assert r[p] == sorted[p] && r[q] == sorted[q];
      } else if q == i {
        assert r[p] == sorted[p] && r[q] == x;
      } else if p < i {
        assert r[p] == sorted[p] && r[q] == sorted[q - 1];
      } else if p == i {
        assert r[p] == x && r[q] == sorted[q - 1];
      } else {
        assert r[p] == sorted[p - 1] && r[q] == sorted[q - 1];
      }
    }
  }

  /** listRecordings: the root's entries (None when list() returns null)
      sorted newest first. */
  method ListRecordings(entries: Option<seq<string>>) returns (list: seq<string>)
    ensures entries.None? ==> list == []
    ensures entries.Some? ==> multiset(list) == multiset(entries.value)
    ensures Descending(list)
  {
    if entries.None? || |entries.value| == 0 {
      return [];
    }
    var names := entries.value;
    list := [];
    var i := 0;
    while i < |names|
      invariant 0 <= i <= |names|
      invariant Descending(list) && multiset(list) == multiset(names[..i])
    {
      list := InsertDescending(list, names[i]);
      assert names[..i + 1] == names[..i] + [names[i]];
      i := i + 1;
    }
    assert names[..i] == names;
  }

  // ---------------------------------------------------------------------
  // Reverse lexicographic order is newest first for "yyyyMMdd_HHmmss" names.

  /** A name createRecordingDir makes: eight digits, '_', six digits. */
  predicate StampName(name: string) {
    |name| == 15 && name[8] == '_'
    && (forall i :: 0 <= i < 8 ==> IsDigit(name[i]))
    && (forall i :: 9 <= i < 15 ==> IsDigit(name[i]))
  }

  predicate AllDigits(s: string) {
    forall i :: 0 <= i < |s| ==> IsDigit(s[i])
  }

  /** The date-time a stamp name spells, as the number yyyyMMddHHmmss. */
  function StampValue(name: string): nat
    requires StampName(name)
  {
    DigitsValue(name[..8]) * 1000000 + DigitsValue(name[9..])
  }

  lemma {:induction false} DigitsValueBound(s: string)
    requires AllDigits(s)
    ensures DigitsValue(s) < Pow10(|s|)
  {
    if s != [] {
      DigitsValueBound(s[..|s| - 1]);
    }
  }

  function Pow10(n: nat): (p: nat)
    ensures p >= 1
  {
    if n == 0 then 1 else 10 * Pow10(n - 1)
  }

  /** Comparing two equal-length strings extended by one char each. */
  lemma {:induction false} LexLessSnoc(x: string, y: string, c: char, d: char)
    requires |x| == |y|
    ensures LexLess(x + [c], y + [d]) <==> LexLess(x, y) || (x == y && c < d)
    decreases |x|
  {
    if x != [] {
      assert (x + [c])[1..] == x[1..] + [c];
      assert (y + [d])[1..] == y[1..] + [d];
      LexLessSnoc(x[1..], y[1..], c, d);
      if x[0] == y[0] && x[1..] == y[1..] {
        assert x == [x[0]] + x[1..] && y == [y[0]] + y[1..];
      }
    }
  }

  /** For digit strings of the same length, lexicographic order is numeric order. */
  lemma {:induction false} DigitsOrder(a: string, b: string)
    requires |a| == |b| && AllDigits(a) && AllDigits(b)
    ensures LexLess(a, b) <==> DigitsValue(a) < DigitsValue(b)
    decreases |a|
  {
    if a != [] {
      var a', b' := a[..|a| - 1], b[..|b| - 1];
      var c, d := a[|a| - 1], b[|b| - 1];
      assert a == a' + [c] && b == b' + [d];
      DigitsOrder(a', b');
      DigitsOrder(b', a');
      LexLessSnoc(a', b', c, d);
      LexLessTotal(a', b');
    }
  }

  /** Comparing two strings that agree in length up to a shared char. */
  lemma {:induction false} LexLessSplit(x: string, y: string, c: char, s: string, t: string)
    requires |x| == |y|
    ensures LexLess(x + [c] + s, y + [c] + t) <==> LexLess(x, y) || (x == y && LexLess(s, t))
    decreases |x|
  {
    if x == [] {
      assert ([c] + s)[1..] == s && ([c] + t)[1..] == t;
    } else {
      assert (x + [c] + s)[1..] == x[1..] + [c] + s;
      assert (y + [c] + t)[1..] == y[1..] + [c] + t;
      LexLessSplit(x[1..], y[1..], c, s, t);
      if x[0] == y[0] && x[1..] == y[1..] {
        assert x == [x[0]] + x[1..] && y == [y[0]] + y[1..];
      }
    }
  }

  /** Between stamp names, reverse lexicographic order is newest first. */
  lemma NewestFirst(a: string, b: string)
    requires StampName(a) && StampName(b)
    ensures LexLess(a, b) <==> StampValue(a) < StampValue(b)
  {
    var a1, a2, b1, b2 := a[..8], a[9..], b[..8], b[9..];
    assert a == a1 + ['_'] + a2 && b == b1 + ['_'] + b2;
    LexLessSplit(a1, b1, '_', a2, b2);
    DigitsOrder(a1, b1);
    DigitsOrder(a2, b2);
    DigitsValueBound(a2);
    DigitsValueBound(b2);
    LexLessTotal(a1, b1);
    DigitsOrder(b1, a1);
    assert Pow10(6) == 1000000;
    PairOrder(DigitsValue(a1), DigitsValue(a2), DigitsValue(b1), DigitsValue(b2));
  }

  /** Numbers written as x1 * 1000000 + x2 with x2 < 1000000 compare by x1
      first. */
  lemma PairOrder(x1: nat, x2: nat, y1: nat, y2: nat)
    requires x2 < 1000000 && y2 < 1000000
    ensures x1 * 1000000 + x2 < y1 * 1000000 + y2 <==> x1 < y1 || (x1 == y1 && x2 < y2)
  {
  }

  // ---------------------------------------------------------------------
  // searchRecordings.

  datatype SearchResult = SearchResult(name: string, preview: string)

  const PREVIEW_CHARS: int := 60
  const SNIPPET_BEFORE: int := 20
  const SNIPPET_AFTER: int := 40

  /** The keyword as searched: trimmed and lower-cased, "" for null. */
  function Keyword(keyword: Option<string>): string {
    if keyword.None? then "" else Lower(Trim(keyword.value))
  }

  /** The preview of a listing without a keyword: the first 60 chars, with
      "..." when there are more, or "(no text)" for an empty text. */
  function ListPreview(text: string): (p: string)
    ensures p != "" && |p| <= PREVIEW_CHARS + 3
    ensures text == "" ==> p == "(no text)"
    ensures text != "" && |text| <= PREVIEW_CHARS ==> p == text
    ensures |text| > PREVIEW_CHARS ==> |p| == PREVIEW_CHARS + 3 && p == text[..PREVIEW_CHARS] + "..."
  {
    var preview := if |text| > PREVIEW_CHARS then text[..PREVIEW_CHARS] + "..." else text;
    if preview == "" then "(no text)" else preview
  }

  /** The text around a match at `idx`: from 20 chars before it to 40 chars
      after it, clamped to the text. */
  function Window(len: int, idx: int, kwLen: int): (w: (int, int))
    requires 0 <= idx && 0 <= kwLen && idx + kwLen <= len
    ensures 0 <= w.0 <= idx && idx + kwLen <= w.1 <= len
    ensures w.0 > 0 <==> idx > SNIPPET_BEFORE
    ensures w.1 < len <==> idx + kwLen + SNIPPET_AFTER < len
    ensures w.1 - w.0 <= SNIPPET_BEFORE + kwLen + SNIPPET_AFTER
  {
    var start := if idx - SNIPPET_BEFORE > 0 then idx - SNIPPET_BEFORE else 0;
    var end := if len < idx + kwLen + SNIPPET_AFTER then len else idx + kwLen + SNIPPET_AFTER;
    (start, end)
  }

  /** The preview of a keyword match at `idx`: the window, with "..." on a
      side where text was cut. */
  function Snippet(text: string, idx: int, kwLen: int): (p: string)
    requires 0 <= idx && 0 <= kwLen && idx + kwLen <= |text|
  {
    var (start, end) := Window(|text|, idx, kwLen);
    (if start > 0 then "..." else "") + text[start..end] + (if end < |text| then "..." else "")
  }

  /** The snippet shows the matched text, lower-cased it is the keyword, and
      "..." marks exactly the sides where text was cut. */
  lemma SnippetShowsMatch(text: string, kw: string, idx: int)
    requires 0 <= idx && idx + |kw| <= |text| && Lower(text)[idx..idx + |kw|] == kw
    ensures var (start, end) := Window(|text|, idx, |kw|);
      var p := Snippet(text, idx, |kw|);
      var off := if start > 0 then 3 else 0;
      && |p| == off + (end - start) + (if end < |text| then 3 else 0)
      && (start > 0 ==> p[..3] == "...")
      && (end < |text| ==> p[|p| - 3..] == "...")
      && p[off..off + end - start] == text[start..end]
      && Lower(p[off + idx - start..off + idx - start + |kw|]) == kw
  {
    var (start, end) := Window(|text|, idx, |kw|);
    var pre, mid, post := (if start > 0 then "..." else ""), text[start..end], (if end < |text| then "..." else "");
    var p := Snippet(text, idx, |kw|);
    assert p == pre + mid + post;
    var off := |pre|;
    var m := p[off + idx - start..off + idx - start + |kw|];
    MiddleSlice(pre, mid, post, 0, |mid|);
    MiddleSlice(pre, mid, post, idx - start, idx - start + |kw|);
    SliceOfSlice(text, start, end, idx - start, idx - start + |kw|);
    LowerSlice(text, idx, idx + |kw|);
  }

  lemma SliceOfSlice<T>(s: seq<T>, i: int, j: int, a: int, b: int)
    requires 0 <= i <= j <= |s| && 0 <= a <= b <= j - i
    ensures s[i..j][a..b] == s[i + a..i + b]
  {
    var t := s[i..j];
    forall k | 0 <= k < b - a ensures t[a..b][k] == s[i + a..i + b][k] {
      assert t[a..b][k] == t[a + k] == s[i + a + k];
    }
  }

  /** Lower-casing commutes with taking a slice. */
  lemma LowerSlice(text: string, a: int, b: int)
    requires 0 <= a <= b <= |text|
    ensures Lower(text[a..b]) == Lower(text)[a..b]
  {
    assert forall i :: 0 <= i < b - a ==> Lower(text[a..b])[i] == Lower(text)[a + i];
  }

  /** A slice of the middle piece of a three-piece sequence. */
  lemma MiddleSlice<T>(pre: seq<T>, mid: seq<T>, post: seq<T>, a: int, b: int)
    requires 0 <= a <= b <= |mid|
    ensures (pre + mid + post)[|pre| + a..|pre| + b] == mid[a..b]
  {
  }

  /** Whether a recording with text `text` is listed for keyword `kw`. */
  predicate Wanted(text: string, kw: string) {
    kw == "" || IndexOf(Lower(text), kw) != -1
  }

  /** The entry a listed recording gets. */
  function Entry(name: string, text: string, kw: string): (r: SearchResult)
    requires Wanted(text, kw)
    ensures r.name == name
  {
    if kw == "" then SearchResult(name, ListPreview(text))
    else
      var idx := IndexOf(Lower(text), kw);
      SearchResult(name, Snippet(text, idx, |kw|))
  }

  /** The results for the names in order, each recording's text given by `load`. */
  function Results(names: seq<string>, load: string -> string, kw: string): seq<SearchResult> {
    if names == [] then []
    else
      var name := names[|names| - 1];
      Results(names[..|names| - 1], load, kw)
        + if Wanted(load(name), kw) then [Entry(name, load(name), kw)] else []
  }

  /** One pass of searchRecordings' loop: whether the recording is listed,
      and the entry it gets. */
  method SearchEntry(name: string, text: string, kw: string) returns (found: bool, r: SearchResult)
    ensures found == Wanted(text, kw)
    ensures found ==> r == Entry(name, text, kw)
  {
    found, r := false, SearchResult(name, "");
    if |kw| == 0 {
      var preview := if |text| > 60 then text[..60] + "..." else text;
      found, r := true, SearchResult(name, if |preview| == 0 then "(no text)" else preview);
    } else if IndexOf(Lower(text), kw) != -1 {
      var idx := IndexOf(Lower(text), kw);
      var start := if 0 < idx - 20 then idx - 20 else 0;
      var end := if |text| < idx + |kw| + 40 then |text| else idx + |kw| + 40;
      assert (start, end) == Window(|text|, idx, |kw|);
      var preview := (if start > 0 then "..." else "") + text[start..end] + (if end < |text| then "..." else "");
      found, r := true, SearchResult(name, preview);
    }
  }

  /** searchRecordings over the names listRecordings gave; `load` is what
      loadResultText returns for each name. */
  method SearchRecordings(keyword: Option<string>, names: seq<string>, load: string -> string)
    returns (results: seq<SearchResult>)
    ensures results == Results(names, load, Keyword(keyword))
  {
    var kw := if keyword.Some? then Lower(Trim(keyword.value)) else "";
    results := [];
    var i := 0;
    while i < |names|
      invariant 0 <= i <= |names|
      invariant results == Results(names[..i], load, kw)
    {
      var found, r := SearchEntry(names[i], load(names[i]), kw);
      assert names[..i + 1][..i] == names[..i];
      if found {
        results := results + [r];
      }
      i := i + 1;
    }
    assert names[..i] == names;
  }

  function Names(rs: seq<SearchResult>): (ns: seq<string>)
    ensures |ns| == |rs| && forall i :: 0 <= i < |rs| ==> ns[i] == rs[i].name
  {
    if rs == [] then [] else Names(rs[..|rs| - 1]) + [rs[|rs| - 1].name]
  }

  /** `a` is `b` with some elements left out, the rest in order. */
  predicate Subsequence(a: seq<string>, b: seq<string>)
    decreases |b|
  {
    if a == [] then true
    else if b == [] then false
    else if a[|a| - 1] == b[|b| - 1] then Subsequence(a[..|a| - 1], b[..|b| - 1])
    else Subsequence(a, b[..|b| - 1])
  }

  lemma {:induction false} NamesSnoc(rs: seq<SearchResult>, r: SearchResult)
    ensures Names(rs + [r]) == Names(rs) + [r.name]
  {
    assert (rs + [r])[..|rs|] == rs;
  }

  /** The search keeps the listing's order, and lists exactly the wanted
      recordings. */
  lemma {:induction false} SearchSelects(names: seq<string>, load: string -> string, kw: string)
    ensures Subsequence(Names(Results(names, load, kw)), names)
    ensures forall n :: n in Names(Results(names, load, kw)) <==> n in names && Wanted(load(n), kw)
  {
    if names != [] {
      var init, name := names[..|names| - 1], names[|names| - 1];
      assert names == init + [name];
      SearchSelects(init, load, kw);
      var rs := Results(init, load, kw);
      if Wanted(load(name), kw) {
        assert Results(names, load, kw) == rs + [Entry(name, load(name), kw)];
        NamesSnoc(rs, Entry(name, load(name), kw));
        assert Names(Results(names, load, kw)) == Names(rs) + [name];
      } else {
        assert Results(names, load, kw) == rs + [];
        assert Results(names, load, kw) == rs;
        SubsequenceDrop(Names(rs), init, name);
      }
    }
  }

  /** A subsequence stays one when an element is appended to the longer side. */
  lemma {:induction false} SubsequenceDrop(a: seq<string>, b: seq<string>, x: string)
    requires Subsequence(a, b)
    ensures Subsequence(a, b + [x])
    decreases |b|, 1
  {
    assert (b + [x])[..|b|] == b;
    if a != [] && a[|a| - 1] == x {
      SubsequenceInit(a, b);
    }
  }

  /** A subsequence stays one without its last element. */
  lemma {:induction false} SubsequenceInit(a: seq<string>, b: seq<string>)
    requires a != [] && Subsequence(a, b)
    ensures Subsequence(a[..|a| - 1], b)
    decreases |b|, 0
  {
    var init := b[..|b| - 1];
    assert b == init + [b[|b| - 1]];
    if a[|a| - 1] != b[|b| - 1] {
      SubsequenceInit(a, init);
    }
    SubsequenceDrop(a[..|a| - 1], init, b[|b| - 1]);
  }

  /** With a blank keyword the next recording is always listed, with its list
      preview. */
  lemma BlankKeywordSnoc(init: seq<string>, name: string, load: string -> string)
    ensures Results(init + [name], load, "")
      == Results(init, load, "") + [SearchResult(name, ListPreview(load(name)))]
  {
    assert (init + [name])[..|init|] == init;
  }

  /** With a blank keyword every recording gets an entry. */
  lemma {:induction false} BlankKeywordLength(names: seq<string>, load: string -> string)
    ensures |Results(names, load, "")| == |names|
  {
    if names != [] {
      var init, name := names[..|names| - 1], names[|names| - 1];
      assert names == init + [name];
      BlankKeywordLength(init, load);
      BlankKeywordSnoc(init, name, load);
    }
  }

  /** With a blank keyword the i-th entry is the i-th recording with its list
      preview. */
  lemma {:induction false} BlankKeywordAt(names: seq<string>, load: string -> string, i: int)
    requires 0 <= i < |names|
    ensures |Results(names, load, "")| == |names|
    ensures Results(names, load, "")[i] == SearchResult(names[i], ListPreview(load(names[i])))
  {
    var init, name := names[..|names| - 1], names[|names| - 1];
    assert names == init + [name];
    BlankKeywordLength(init, load);
    BlankKeywordSnoc(init, name, load);
    if i < |init| {
      BlankKeywordAt(init, load, i);
    }
  }

  /** With a blank keyword every recording is listed, in listing order, with
      its list preview. */
  lemma BlankKeywordListsAll(names: seq<string>, load: string -> string)
    ensures Names(Results(names, load, "")) == names
    ensures forall i :: 0 <= i < |names| ==> Results(names, load, "")[i].preview == ListPreview(load(names[i]))
  {
    BlankKeywordLength(names, load);
    var rs := Results(names, load, "");
    forall i | 0 <= i < |names| ensures rs[i] == SearchResult(names[i], ListPreview(load(names[i]))) {
      BlankKeywordAt(names, load, i);
    }
  }
}
