/** The karaoke view of a saved recording (MainActivity.java): the transcript
    text laid out word by word with one span per word, and the single
    highlight marker that follows the playback position. */
module Karaoke {
  import opened Wrappers
  import opened Strings
  import opened Timing
  import opened Transcript

  // ---------------------------------------------------------------------
  // Layout: the text and the per-word span offsets buildKaraokeText fills.

  /** The text built so far, the span of every word placed so far, and the
      loop's two variables: the current sentence's start (-1 when a new
      sentence is due) and whether the next sentence needs a "\n" first. */
  datatype Layout = Layout(text: string, starts: seq<int>, ends: seq<int>, sentenceStartMs: int, needNewLine: bool)

  const Blank: Layout := Layout("", [], [], -1, false)

  /** The "[hh:mm:ss] " stamp that opens a sentence. */
  function Stamp(fmt: int -> string, ms: int): string {
    "[" + fmt(ms) + "] "
  }

  /** What goes in front of a word: a stamp (after a "\n" when a sentence came
      before) when a new sentence is due, nothing otherwise. */
  function Header(g: Layout, t: Token, fmt: int -> string): string {
    if g.sentenceStartMs != -1 then ""
    else if g.needNewLine then "\n" + Stamp(fmt, t.startMs)
    else Stamp(fmt, t.startMs)
  }

  /** One pass of buildKaraokeText's loop: the header, then the word (a space
      for U+2581) with its span; a terminator makes a new sentence due. */
  function Place(g: Layout, t: Token, fmt: int -> string): (r: Layout)
    ensures r.text == g.text + Header(g, t, fmt) + Piece(t.word)
    ensures r.starts == g.starts + [|g.text| + |Header(g, t, fmt)|] && r.ends == g.ends + [|r.text|]
  {
    var before := g.text + Header(g, t, fmt);
    var text := before + Piece(t.word);
    var start := if g.sentenceStartMs == -1 then t.startMs else g.sentenceStartMs;
    if IsTerminator(t.word) then
      Layout(text, g.starts + [|before|], g.ends + [|text|], -1, true)
    else
      Layout(text, g.starts + [|before|], g.ends + [|text|], start, g.needNewLine)
  }

  /** The layout of a whole word list. */
  function LayoutOf(ts: seq<Token>, fmt: int -> string): (l: Layout)
    ensures |l.starts| == |ts| && |l.ends| == |ts|
  {
    if ts == [] then Blank else Place(LayoutOf(ts[..|ts| - 1], fmt), ts[|ts| - 1], fmt)
  }

  /** Span i covers exactly word i (one space for U+2581), and spans are
      disjoint and in word order. */
  predicate SpansFit(l: Layout, ts: seq<Token>) {
    |l.starts| == |ts| && |l.ends| == |ts|
    && (forall i :: 0 <= i < |ts| ==> 0 <= l.starts[i] <= l.ends[i] <= |l.text|)
    && (forall i :: 0 <= i < |ts| ==> l.text[l.starts[i]..l.ends[i]] == Piece(ts[i].word))
    && (forall i, j :: 0 <= i < j < |ts| ==> l.ends[i] <= l.starts[j])
  }

  lemma PlaceFits(g: Layout, ts: seq<Token>, t: Token, fmt: int -> string)
    requires SpansFit(g, ts)
    ensures SpansFit(Place(g, t, fmt), ts + [t])
  {
    SnocFits(g, ts, t, Place(g, t, fmt), Header(g, t, fmt));
  }

  /** Appending a header and a word's piece, with the piece's span, keeps
      the spans fitting. */
  lemma SnocFits(g: Layout, ts: seq<Token>, t: Token, r: Layout, header: string)
    requires SpansFit(g, ts)
    requires r.text == g.text + header + Piece(t.word)
    requires r.starts == g.starts + [|g.text| + |header|] && r.ends == g.ends + [|r.text|]
    ensures SpansFit(r, ts + [t])
  {
    var tt := ts + [t];
    var n := |ts|;
    var text := r.text;
    assert text[..|g.text|] == g.text;
    forall i | 0 <= i < n + 1
      ensures 0 <= r.starts[i] <= r.ends[i] <= |text|
    {
    }
    forall i | 0 <= i < n + 1
      ensures text[r.starts[i]..r.ends[i]] == Piece(tt[i].word)
    {
      if i < n {
        assert r.starts[i] == g.starts[i] && r.ends[i] == g.ends[i];
        assert text[r.starts[i]..r.ends[i]] == g.text[g.starts[i]..g.ends[i]];
      } else {
        assert text[r.starts[n]..r.ends[n]] == Piece(t.word);
      }
    }
    forall i, j | 0 <= i < j < n + 1
      ensures r.ends[i] <= r.starts[j]
    {
      if j < n {
        assert r.ends[i] == g.ends[i] && r.starts[j] == g.starts[j];
      }
    }
  }

  lemma {:induction false} LayoutSpans(ts: seq<Token>, fmt: int -> string)
    ensures SpansFit(LayoutOf(ts, fmt), ts)
  {
    if ts != [] {
      var init, t := ts[..|ts| - 1], ts[|ts| - 1];
      assert init + [t] == ts;
      var g := LayoutOf(init, fmt);
      assert LayoutOf(ts, fmt) == Place(g, t, fmt);
      LayoutSpans(init, fmt);
      PlaceFits(g, init, t, fmt);
    }
  }

  /** A word with visible text has a span of its own: the starts strictly
      increase over non-empty words. */
  lemma SpansIncrease(ts: seq<Token>, fmt: int -> string, i: nat, j: nat)
    requires i < j < |ts| && ts[i].word != []
    ensures LayoutOf(ts, fmt).starts[i] < LayoutOf(ts, fmt).starts[j]
  {
    LayoutSpans(ts, fmt);
    var l := LayoutOf(ts, fmt);
    assert |l.text[l.starts[i]..l.ends[i]]| > 0;
  }

  // ---------------------------------------------------------------------
  // Reference: one stamped line per sentence, joined by "\n".

  /** The untrimmed line the karaoke view shows for a group of tokens. */
  function RawLine(s: seq<Token>, fmt: int -> string): string {
    Stamp(fmt, FirstStart(s)) + Render(s)
  }

  function RawLinesOf(ss: seq<seq<Token>>, fmt: int -> string): (lines: seq<string>)
    ensures |lines| == |ss|
  {
    if ss == [] then [] else RawLinesOf(ss[..|ss| - 1], fmt) + [RawLine(ss[|ss| - 1], fmt)]
  }

  /** The sentences of a token list, then its unterminated remainder if any. */
  function Groups(ts: seq<Token>): seq<seq<Token>> {
    Sentences(ts) + if Remainder(ts) == [] then [] else [Remainder(ts)]
  }

  /** The karaoke text as the sentence lines it should show. */
  function KaraokeText(ts: seq<Token>, fmt: int -> string): string {
    JoinLines(RawLinesOf(Groups(ts), fmt))
  }

  /** No token carries the "unknown start" value -1. */
  predicate Timed(ts: seq<Token>) {
    forall i :: 0 <= i < |ts| ==> ts[i].startMs != -1
  }

  lemma JoinLinesSnoc(lines: seq<string>, line: string)
    ensures JoinLines(lines + [line]) == if lines == [] then line else JoinLines(lines) + "\n" + line
  {
    var all := lines + [line];
    assert all[..|all| - 1] == lines;
  }

  lemma JoinLinesExtendLast(lines: seq<string>, line: string, more: string)
    ensures JoinLines(lines + [line + more]) == JoinLines(lines + [line]) + more
  {
    JoinLinesSnoc(lines, line);
    JoinLinesSnoc(lines, line + more);
  }

  lemma RawLinesSnoc(ss: seq<seq<Token>>, s: seq<Token>, fmt: int -> string)
    ensures RawLinesOf(ss + [s], fmt) == RawLinesOf(ss, fmt) + [RawLine(s, fmt)]
  {
    assert (ss + [s])[..|ss|] == ss;
  }

  lemma RenderSnoc(ts: seq<Token>, t: Token)
    ensures Render(ts + [t]) == Render(ts) + Piece(t.word)
  {
    assert (ts + [t])[..|ts|] == ts;
  }

  /** A sentence already under way keeps its stamp and gains the word. */
  lemma RawLineSnoc(s: seq<Token>, t: Token, fmt: int -> string)
    requires FirstStart(s) != -1
    ensures RawLine(s + [t], fmt) == RawLine(s, fmt) + Piece(t.word)
  {
    FirstStartSnoc(s, t);
    RenderSnoc(s, t);
  }

  lemma FirstStartTimed(s: seq<Token>)
    requires s != [] && Timed(s)
    ensures FirstStart(s) == s[0].startMs
  {
  }

  /** The loop's variables against the reference. */
  predicate Tracks(g: Layout, ts: seq<Token>, fmt: int -> string) {
    g.text == KaraokeText(ts, fmt)
    && g.sentenceStartMs == FirstStart(Remainder(ts))
    && g.needNewLine == (Sentences(ts) != [])
  }

  lemma RawLineSingle(t: Token, fmt: int -> string)
    requires t.startMs != -1
    ensures RawLine([t], fmt) == Stamp(fmt, t.startMs) + Piece(t.word)
  {
    RenderSnoc([], t);
    assert [] + [t] == [t];
    assert "" + Piece(t.word) == Piece(t.word);
  }

  /** The reference after a token that opens a sentence. */
  lemma OpeningReference(ts: seq<Token>, t: Token)
    requires Remainder(ts) == []
    ensures Groups(ts) == Sentences(ts)
    ensures Groups(ts + [t]) == Sentences(ts) + [[t]]
    ensures Sentences(ts + [t]) == Sentences(ts) + if IsTerminator(t.word) then [[t]] else []
    ensures Remainder(ts + [t]) == if IsTerminator(t.word) then [] else [t]
  {
    ReferenceSnoc(ts, t);
    var ss := Sentences(ts);
    assert ss + [] == ss;
    assert [] + [t] == [t];
  }

  /** The text after a sentence-opening token, as strings only. */
  lemma OpeningText(text: string, lines: seq<string>, stamp: string, word: string)
    requires text == JoinLines(lines)
    ensures text + (if lines != [] then "\n" + stamp else stamp) + word == JoinLines(lines + [stamp + word])
  {
    JoinLinesSnoc(lines, stamp + word);
    if lines == [] {
      assert text == "";
      assert "" + stamp + word == stamp + word;
    } else {
      assert text + ("\n" + stamp) + word == text + "\n" + (stamp + word);
    }
  }

  /** A token that opens a sentence: a stamped line of its own. */
  lemma PlaceOpening(ts: seq<Token>, t: Token, fmt: int -> string)
    requires Tracks(LayoutOf(ts, fmt), ts, fmt) && Remainder(ts) == [] && t.startMs != -1
    ensures Tracks(LayoutOf(ts + [t], fmt), ts + [t], fmt)
  {
    var g := LayoutOf(ts, fmt);
    var tt := ts + [t];
    assert tt[..|tt| - 1] == ts;
    var r := LayoutOf(tt, fmt);
    assert r == Place(g, t, fmt);
    OpeningReference(ts, t);
    var ss := Sentences(ts);
    var lines := RawLinesOf(ss, fmt);
    RawLinesSnoc(ss, [t], fmt);
    RawLineSingle(t, fmt);
    var stamp, word := Stamp(fmt, t.startMs), Piece(t.word);
    assert Header(g, t, fmt) == if lines != [] then "\n" + stamp else stamp;
    OpeningText(g.text, lines, stamp, word);
  }

  /** The reference after a token inside a sentence under way. */
  lemma ContinuingReference(ts: seq<Token>, t: Token)
    requires Remainder(ts) != []
    ensures Groups(ts) == Sentences(ts) + [Remainder(ts)]
    ensures Groups(ts + [t]) == Sentences(ts) + [Remainder(ts) + [t]]
    ensures Sentences(ts + [t]) == Sentences(ts) + if IsTerminator(t.word) then [Remainder(ts) + [t]] else []
    ensures Remainder(ts + [t]) == if IsTerminator(t.word) then [] else Remainder(ts) + [t]
  {
    ReferenceSnoc(ts, t);
    var ss := Sentences(ts);
    assert ss + [] == ss;
    assert (ss + [Remainder(ts) + [t]]) + [] == ss + [Remainder(ts) + [t]];
  }

  /** A token inside a sentence under way: its line grows by the word. */
  lemma PlaceContinuing(ts: seq<Token>, t: Token, fmt: int -> string)
    requires Tracks(LayoutOf(ts, fmt), ts, fmt) && Remainder(ts) != [] && FirstStart(Remainder(ts)) != -1
    ensures Tracks(LayoutOf(ts + [t], fmt), ts + [t], fmt)
  {
    var g := LayoutOf(ts, fmt);
    var tt := ts + [t];
    assert tt[..|tt| - 1] == ts;
    var r := LayoutOf(tt, fmt);
    assert r == Place(g, t, fmt);
    ContinuingReference(ts, t);
    var ss, rest := Sentences(ts), Remainder(ts);
    var word := Piece(t.word);
    assert Header(g, t, fmt) == "";
    assert r.text == g.text + word by {
      assert g.text + "" == g.text;
    }
    RawLinesSnoc(ss, rest, fmt);
    RawLinesSnoc(ss, rest + [t], fmt);
    RawLineSnoc(rest, t, fmt);
    JoinLinesExtendLast(RawLinesOf(ss, fmt), RawLine(rest, fmt), word);
    FirstStartSnoc(rest, t);
  }

  lemma {:induction false} RemainderTimed(ts: seq<Token>)
    requires Timed(ts)
    ensures Timed(Remainder(ts))
    decreases |ts|
  {
    if ts != [] && !IsTerminator(ts[|ts| - 1].word) {
      var init := ts[..|ts| - 1];
      RemainderTimed(init);
      var r := Remainder(init) + [ts[|ts| - 1]];
      assert forall i :: 0 <= i < |r| - 1 ==> r[i] == Remainder(init)[i];
    }
  }

  /** When every token has a start, the karaoke text is the sentences (and
      the unterminated remainder) each stamped with its first start, one
      per line: a stamp opens every sentence and "\n" separates them. */
  lemma {:induction false} KaraokeMatchesSentences(ts: seq<Token>, fmt: int -> string)
    requires Timed(ts)
    ensures LayoutOf(ts, fmt).text == KaraokeText(ts, fmt)
    ensures Tracks(LayoutOf(ts, fmt), ts, fmt)
  {
    if ts == [] {
      assert Sentences(ts) == [] && Remainder(ts) == [];
      assert Groups(ts) == [];
    } else {
      var init, t := ts[..|ts| - 1], ts[|ts| - 1];
      assert init + [t] == ts;
      assert Timed(init);
      KaraokeMatchesSentences(init, fmt);
      if Remainder(init) == [] {
        PlaceOpening(init, t, fmt);
      } else {
        RemainderTimed(init);
        FirstStartTimed(Remainder(init));
        PlaceContinuing(init, t, fmt);
      }
    }
  }

  /** The stamp appended after an optional "\n" is the header. */
  lemma HeaderAppend(text: string, needNewLine: bool, fmt: int -> string, ms: int)
    ensures (if needNewLine then text + "\n" else text) + Stamp(fmt, ms)
      == text + (if needNewLine then "\n" + Stamp(fmt, ms) else Stamp(fmt, ms))
  {
  }

  lemma PlaceStep(ts: seq<Token>, fmt: int -> string, i: nat)
    requires i < |ts|
    ensures LayoutOf(ts[..i + 1], fmt) == Place(LayoutOf(ts[..i], fmt), ts[i], fmt)
  {
    assert ts[..i + 1][..i] == ts[..i];
  }

  // ---------------------------------------------------------------------
  // Highlight resolution.

  /** Word `t` is being spoken at `ms`. */
  predicate Covers(t: Token, ms: int) {
    t.startMs <= ms < t.endMs
  }

  /** The first word at or after `from` that covers `ms`, or -1. */
  function FirstCovering(ws: seq<Token>, ms: int, from: nat): (r: int)
    requires from <= |ws|
    ensures r == -1 || (from <= r < |ws| && Covers(ws[r], ms))
    ensures r == -1 ==> forall j :: from <= j < |ws| ==> !Covers(ws[j], ms)
    ensures r != -1 ==> forall j :: from <= j < r ==> !Covers(ws[j], ms)
    decreases |ws| - from
  {
    if from == |ws| then -1
    else if Covers(ws[from], ms) then from
    else FirstCovering(ws, ms, from + 1)
  }

  /** The last word before index `n` that has started by `ms`, or -1. */
  function LastStarted(ws: seq<Token>, ms: int, n: nat): (r: int)
    requires n <= |ws|
    ensures r == -1 || (0 <= r < n && ws[r].startMs <= ms)
    ensures r == -1 ==> forall j :: 0 <= j < n ==> ms < ws[j].startMs
    ensures r != -1 ==> forall j :: r < j < n ==> ms < ws[j].startMs
  {
    if n == 0 then -1
    else if ms >= ws[n - 1].startMs then n - 1
    else LastStarted(ws, ms, n - 1)
  }

  /** The word to highlight at `ms`: the first word being spoken; failing
      that, and only past 0 ms, the last word already started (a gap
      between words keeps the previous word lit); otherwise none (-1). */
  function HighlightIndex(ws: seq<Token>, ms: int): (r: int)
    ensures -1 <= r < |ws|
    ensures (exists j :: 0 <= j < |ws| && Covers(ws[j], ms)) ==>
      0 <= r && Covers(ws[r], ms) && forall j :: 0 <= j < r ==> !Covers(ws[j], ms)
    ensures (forall j :: 0 <= j < |ws| ==> !Covers(ws[j], ms)) ==>
      if ms > 0 && exists j :: 0 <= j < |ws| && ws[j].startMs <= ms then
        0 <= r && ws[r].startMs <= ms && forall j :: r < j < |ws| ==> ms < ws[j].startMs
      else r == -1
  {
    var c := FirstCovering(ws, ms, 0);
    if c == -1 && ms > 0 then LastStarted(ws, ms, |ws|) else c
  }

  /** The text range a highlight marker pair is attached to. */
  datatype Span = Span(start: int, end: int)

  /** The karaoke text view: the words, the text and its span arrays, the
      index highlighted last, and the highlight markers attached to the text
      (`current` is the pair the activity holds on to). */
  class KaraokeView {
    /** The time formatter behind the "[hh:mm:ss] " stamps (formatTimeMs). */
    const formatTime: int -> string
    var words: seq<Token>
    var text: string
    var spanStarts: array<int>
    var spanEnds: array<int>
    var lastHighlight: int
    var current: Option<Span>
    var attached: seq<Span>
    /** The layout the text and the span arrays were built from. */
    ghost var layout: Layout

    /** The marker pair the activity holds is the only one attached. */
    ghost predicate MarkersValid()
      reads this
    {
      attached == if current.Some? then [current.value] else []
    }

    /** The text and the span arrays are those of `layout`, the layout of
        the current words. */
    ghost predicate Built()
      reads this`words, this`text, this`layout, this`spanStarts, this`spanEnds, spanStarts, spanEnds
    {
      spanStarts.Length == |words| && spanEnds.Length == |words|
      && text == layout.text && spanStarts[..] == layout.starts && spanEnds[..] == layout.ends
      && layout == LayoutOf(words, formatTime)
    }

    /** The layout is built for the current words, and the marker sits on the
        span of the last highlighted word. */
    ghost predicate Valid()
      reads this, spanStarts, spanEnds
    {
      MarkersValid()
      && (words != [] ==>
            Built()
            && -1 <= lastHighlight < |words|
            && (current.Some? <==> lastHighlight >= 0)
            && (current.Some? ==> current.value == Span(spanStarts[lastHighlight], spanEnds[lastHighlight])))
    }

    constructor ()
      ensures Valid() && formatTime == FormatTimeMs
      ensures words == [] && text == "" && lastHighlight == -1 && attached == []
    {
      formatTime := FormatTimeMs;
      words := [];
      text := "";
      spanStarts := new int[0];
      spanEnds := new int[0];
      lastHighlight := -1;
      current := None;
      attached := [];
      layout := Blank;
    }

    /** At most one marker pair is ever attached to the text. */
    lemma AtMostOneMarker()
      requires Valid()
      ensures |attached| <= 1
      ensures words != [] && lastHighlight >= 0 ==>
        attached == [Span(spanStarts[lastHighlight], spanEnds[lastHighlight])]
    {
    }

    /** Take new words, lay them out (buildKaraokeText) and highlight the
        word at 0 ms (updateKaraokeHighlight(0)). */
    method Show(ws: seq<Token>)
      requires Valid()
      modifies this
      ensures Valid() && words == ws
      ensures ws != [] ==> text == LayoutOf(ws, formatTime).text && lastHighlight == HighlightIndex(ws, 0)
    {
      words := ws;
      BuildKaraokeText();
      UpdateHighlight(0);
    }

    /** buildKaraokeText: lay the words out into a new text with fresh span
        arrays and no highlight; with no words nothing changes. */
    method BuildKaraokeText()
      requires MarkersValid()
      modifies this
      ensures Valid()
      ensures words == old(words)
      ensures old(words) == [] ==>
        (text == old(text) && spanStarts == old(spanStarts) && spanEnds == old(spanEnds)
         && lastHighlight == old(lastHighlight) && attached == old(attached))
      ensures old(words) != [] ==>
        (fresh(spanStarts) && fresh(spanEnds) && layout == LayoutOf(words, formatTime)
         && lastHighlight == -1 && attached == [])
    {
      if words == [] {
        return;
      }
      spanStarts := new int[|words|];
      spanEnds := new int[|words|];
      lastHighlight := -1;
      current := None;
      attached := [];
      text, layout := FillSpans(words, formatTime, spanStarts, spanEnds);
    }

    /** updateKaraokeHighlight: find the word at `ms`; when it is the word
        already highlighted nothing changes, otherwise the old marker pair is
        removed and one is attached to the new word's span (none for -1). */
    method UpdateHighlight(ms: int)
      requires Valid()
      modifies this
      ensures Valid()
      ensures words == old(words) && text == old(text) && layout == old(layout)
      ensures spanStarts == old(spanStarts) && spanEnds == old(spanEnds)
      ensures old(words) == [] ==> lastHighlight == old(lastHighlight) && current == old(current) && attached == old(attached)
      ensures old(words) != [] ==> lastHighlight == HighlightIndex(words, ms)
      ensures old(words) != [] && HighlightIndex(words, ms) == old(lastHighlight) ==>
        current == old(current) && attached == old(attached)
    {
      if words == [] {
        return;
      }
      var index := ResolveHighlight(words, ms);
      if index == lastHighlight {
        return;
      }
      if current.Some? {
        assert attached == [current.value];
        WithoutSingle(current.value);
        attached := Without(attached, current.value);
      }
      if index >= 0 {
        var marker := Span(spanStarts[index], spanEnds[index]);
        attached := attached + [marker];
        current := Some(marker);
      } else {
        current := None;
      }
      lastHighlight := index;
    }
  }

  /** The two searches of updateKaraokeHighlight: the first word being
      spoken at `ms`, else (past 0 ms) the last word already started. */
  method ResolveHighlight(ws: seq<Token>, ms: int) returns (index: int)
    ensures index == HighlightIndex(ws, ms)
  {
    index := -1;
    var i := 0;
    while i < |ws|
      invariant 0 <= i <= |ws| && index == -1
      invariant FirstCovering(ws, ms, 0) == FirstCovering(ws, ms, i)
    {
      if ws[i].startMs <= ms < ws[i].endMs {
        index := i;
        break;
      }
      i := i + 1;
    }
    assert index == FirstCovering(ws, ms, 0);
    if index == -1 && ms > 0 {
      var j := |ws| - 1;
      while j >= 0
        invariant -1 <= j < |ws| && index == -1
        invariant LastStarted(ws, ms, |ws|) == LastStarted(ws, ms, j + 1)
      {
        if ms >= ws[j].startMs {
          index := j;
          break;
        }
        j := j - 1;
      }
    }
  }

  /** The loop of buildKaraokeText: appends each word's header and text and
      records the word's span in the two arrays; returns the text. */
  method FillSpans(ws: seq<Token>, fmt: int -> string, starts: array<int>, ends: array<int>) returns (built: string, ghost layout: Layout)
    requires starts.Length == |ws| && ends.Length == |ws| && starts != ends
    modifies starts, ends
    ensures layout == LayoutOf(ws, fmt)
    ensures built == layout.text && starts[..] == layout.starts && ends[..] == layout.ends
  {
    var n := |ws|;
    built := "";
    assert ws[..0] == [];
    var sentenceStartMs := -1;
    var needNewLine := false;
    var i := 0;
    layout := Blank;
    while i < n
      invariant 0 <= i <= n
      invariant layout == LayoutOf(ws[..i], fmt)
      invariant built == layout.text && sentenceStartMs == layout.sentenceStartMs && needNewLine == layout.needNewLine
      invariant forall k :: 0 <= k < i ==> starts[k] == layout.starts[k] && ends[k] == layout.ends[k]
    {
      var t := ws[i];
      ghost var before := layout.text + Header(layout, t, fmt);
      if sentenceStartMs == -1 {
        if needNewLine {
          built := built + "\n";
        }
        sentenceStartMs := t.startMs;
        built := built + Stamp(fmt, sentenceStartMs);
        HeaderAppend(layout.text, needNewLine, fmt, t.startMs);
      } else {
        assert layout.text + "" == layout.text;
      }
      assert built == before;
      starts[i] := |built|;
      built := built + Piece(t.word);
      ends[i] := |built|;
      if IsTerminator(t.word) {
        sentenceStartMs := -1;
        needNewLine := true;
      }
      ghost var next := Place(layout, t, fmt);
      assert built == next.text;
      assert sentenceStartMs == next.sentenceStartMs && needNewLine == next.needNewLine;
      forall k | 0 <= k < i + 1
        ensures starts[k] == next.starts[k] && ends[k] == next.ends[k]
      {
        if k < i {
          assert next.starts[k] == layout.starts[k] && next.ends[k] == layout.ends[k];
        }
      }
      PlaceStep(ws, fmt, i);
      assert next == LayoutOf(ws[..i + 1], fmt);
      layout := next;
      i := i + 1;
    }
    assert ws[..n] == ws;
    assert starts[..] == layout.starts && ends[..] == layout.ends;
  }

  /** A span list with every copy of `s` removed (Spannable.removeSpan). */
  function Without(spans: seq<Span>, s: Span): (r: seq<Span>)
    ensures s !in r && forall x :: x in r <==> x in spans && x != s
  {
    if spans == [] then []
    else (if spans[0] == s then [] else [spans[0]]) + Without(spans[1..], s)
  }

  /** Removing the only marker leaves none. */
  lemma WithoutSingle(s: Span)
    ensures Without([s], s) == []
  {
    assert [s][1..] == [];
  }

  /** The highlighted word's marker covers exactly that word's text. */
  lemma MarkerCoversWord(v: KaraokeView)
    requires v.Valid() && v.words != [] && v.lastHighlight >= 0
    ensures v.current.Some?
    ensures 0 <= v.current.value.start <= v.current.value.end <= |v.text|
      && v.text[v.current.value.start..v.current.value.end] == Piece(v.words[v.lastHighlight].word)
  {
    LayoutSpans(v.words, v.formatTime);
  }
}
