/** Sentence segmentation of the recognizer's timed tokens (MainActivity.java):
    a token "▁" stands for a space, a token ".", "?" or "!" ends a sentence,
    and every sentence is printed as one "[hh:mm:ss] text" line stamped with
    the start of its first timed token. The same rule runs in three places:
    the incremental live display, which keeps its state in fields between
    calls, and two batch builders over a whole token list. */
module Transcript {
  import opened Wrappers
  import opened Strings
  import opened Timing

  /** One parsed record {"w": word, "s": startMs, "e": endMs}. */
  datatype Token = Token(word: string, startMs: int, endMs: int)

  /** The recognizer's word-boundary piece, U+2581. */
  const WORD_BOUNDARY: string := "▁"

  /** The word is ".", "?" or "!" (stated on its one char). */
  predicate IsTerminator(w: string) {
    |w| == 1 && (w[0] == '.' || w[0] == '?' || w[0] == '!')
  }

  /** What a token contributes to the sentence text. */
  function Piece(w: string): string {
    if w == WORD_BOUNDARY then " " else w
  }

  /** The text of a run of tokens. */
  function Render(ts: seq<Token>): (r: string)
  {
    if ts == [] then "" else Render(ts[..|ts| - 1]) + Piece(ts[|ts| - 1].word)
  }

  /** The start the segmenter stamps a sentence with: -1 means "not yet
      known", so the first token whose start is not -1 decides it. */
  function FirstStart(ts: seq<Token>): int {
    if ts == [] then -1
    else if ts[0].startMs != -1 then ts[0].startMs
    else FirstStart(ts[1..])
  }

  lemma {:induction false} FirstStartSnoc(ts: seq<Token>, t: Token)
    ensures FirstStart(ts + [t]) == if FirstStart(ts) == -1 then t.startMs else FirstStart(ts)
  {
    if ts != [] {
      assert (ts + [t])[1..] == ts[1..] + [t];
      FirstStartSnoc(ts[1..], t);
    }
  }

  /** One output line: "[", the start as the time formatter `fmt` (formatTimeMs
      in the activity) prints it, "] ", then the trimmed sentence. */
  function Line(fmt: int -> string, startMs: int, sentence: string): string {
    "[" + fmt(startMs) + "] " + Trim(sentence)
  }

  /** A line that starts with '[' and does not end in space. */
  predicate WellFormed(line: string) {
    line != [] && line[0] == '[' && !IsTrimmable(line[|line| - 1])
  }

  /** A line is well formed exactly when its trimmed sentence is not blank. */
  lemma LineWellFormed(startMs: int, sentence: string, fmt: int -> string)
    ensures WellFormed(Line(fmt, startMs, sentence)) <==> Trim(sentence) != []
  {
    var head, r := "[" + fmt(startMs) + "] ", Trim(sentence);
    TrimSpec(sentence);
    assert Line(fmt, startMs, sentence) == head + r;
    assert (head + r)[|head + r| - 1] == if r == [] then ' ' else r[|r| - 1];
  }

  // ---------------------------------------------------------------------
  // The segmenter: the three variables every builder keeps.

  /** `confirmed` holds the finished lines, each followed by "\n";
      `sentence` is the unfinished sentence; `startMs` its start or -1. */
  datatype Segmenter = Segmenter(confirmed: string, sentence: string, startMs: int)

  const Fresh: Segmenter := Segmenter("", "", -1)

  /** One token through the segmenter. A terminator flushes the sentence as
      a line and resets the start to -1; any other token extends it. */
  function Step(g: Segmenter, t: Token, fmt: int -> string): (r: Segmenter)
    ensures IsTerminator(t.word) <==> r.sentence == "" && r.startMs == -1 && r.confirmed != g.confirmed
  {
    var start := if g.startMs == -1 then t.startMs else g.startMs;
    var sentence := g.sentence + Piece(t.word);
    if IsTerminator(t.word) then
      Segmenter(g.confirmed + Line(fmt, start, sentence) + "\n", "", -1)
    else
      Segmenter(g.confirmed, sentence, start)
  }

  /** A run of tokens through the segmenter, in order. */
  function Feed(g: Segmenter, ts: seq<Token>, fmt: int -> string): (r: Segmenter)
  {
    if ts == [] then g else Step(Feed(g, ts[..|ts| - 1], fmt), ts[|ts| - 1], fmt)
  }

  /** Feeding two runs one after the other is feeding their concatenation. */
  lemma {:induction false} FeedAppend(g: Segmenter, a: seq<Token>, b: seq<Token>, fmt: int -> string)
    ensures Feed(g, a + b, fmt) == Feed(Feed(g, a, fmt), b, fmt)
    decreases |b|
  {
    if b == [] {
      assert a + b == a;
    } else {
      assert (a + b)[..|a + b| - 1] == a + b[..|b| - 1];
      FeedAppend(g, a, b[..|b| - 1], fmt);
    }
  }

  /** Feeding one more token of `ts` after `before` is one Step. */
  lemma FeedOneMore(before: seq<Token>, ts: seq<Token>, i: nat, fmt: int -> string)
    requires i < |ts|
    ensures Feed(Fresh, before + ts[..i + 1], fmt) == Step(Feed(Fresh, before + ts[..i], fmt), ts[i], fmt)
  {
    var longer := before + ts[..i + 1];
    assert longer[..|longer| - 1] == before + ts[..i];
  }

  /** The tokens of a series of deltas, one delta after another. */
  function Concat(deltas: seq<seq<Token>>): (r: seq<Token>)
  {
    if deltas == [] then [] else Concat(deltas[..|deltas| - 1]) + deltas[|deltas| - 1]
  }

  /** The segmenter after one live update per delta. */
  function FeedEach(g: Segmenter, deltas: seq<seq<Token>>, fmt: int -> string): Segmenter {
    if deltas == [] then g else Feed(FeedEach(g, deltas[..|deltas| - 1], fmt), deltas[|deltas| - 1], fmt)
  }

  /** However the token list is split into deltas, the state is the one
      that feeding it in a single delta gives. */
  lemma {:induction false} FeedDeltas(g: Segmenter, deltas: seq<seq<Token>>, fmt: int -> string)
    ensures FeedEach(g, deltas, fmt) == Feed(g, Concat(deltas), fmt)
  {
    if deltas != [] {
      var init := deltas[..|deltas| - 1];
      FeedDeltas(g, init, fmt);
      FeedAppend(g, Concat(init), deltas[|deltas| - 1], fmt);
    }
  }

  // ---------------------------------------------------------------------
  // The reference: the token list split at its terminators.

  /** The tokens after the last terminator. */
  function Remainder(ts: seq<Token>): (r: seq<Token>)
    ensures |r| <= |ts|
  {
    if ts == [] then []
    else if IsTerminator(ts[|ts| - 1].word) then []
    else Remainder(ts[..|ts| - 1]) + [ts[|ts| - 1]]
  }

  /** The terminated sentences, in order; each runs up to and including its
      terminator. */
  function Sentences(ts: seq<Token>): (ss: seq<seq<Token>>)
  {
    if ts == [] then []
    else if IsTerminator(ts[|ts| - 1].word) then Sentences(ts[..|ts| - 1]) + [Remainder(ts[..|ts| - 1]) + [ts[|ts| - 1]]]
    else Sentences(ts[..|ts| - 1])
  }

  /** The line printed for a sentence. */
  function SentenceLine(s: seq<Token>, fmt: int -> string): string {
    Line(fmt, FirstStart(s), Render(s))
  }

  /** The line of each sentence, in order. */
  function LinesOf(ss: seq<seq<Token>>, fmt: int -> string): (lines: seq<string>)
    ensures |lines| == |ss|
  {
    if ss == [] then [] else LinesOf(ss[..|ss| - 1], fmt) + [SentenceLine(ss[|ss| - 1], fmt)]
  }

  /** One line per terminated sentence. */
  function SentenceLines(ts: seq<Token>, fmt: int -> string): (lines: seq<string>) {
    LinesOf(Sentences(ts), fmt)
  }

  /** The lines the batch builders print: the sentence lines, then a line for
      the unterminated remainder when its text is not blank. */
  function TranscriptLines(ts: seq<Token>, fmt: int -> string): seq<string> {
    var rest := Remainder(ts);
    SentenceLines(ts, fmt)
      + if Trim(Render(rest)) != [] then [Line(fmt, FirstStart(rest), Render(rest))] else []
  }

  /** Lines joined by "\n", without a trailing one. */
  function JoinLines(lines: seq<string>): string {
    if lines == [] then ""
    else if |lines| == 1 then lines[0]
    else JoinLines(lines[..|lines| - 1]) + "\n" + lines[|lines| - 1]
  }

  /** Lines each followed by "\n", as a StringBuilder collects them. */
  function Terminated(lines: seq<string>): (r: string)
  {
    if lines == [] then "" else Terminated(lines[..|lines| - 1]) + lines[|lines| - 1] + "\n"
  }

  lemma TerminatedSnoc(lines: seq<string>, line: string)
    ensures Terminated(lines + [line]) == Terminated(lines) + line + "\n"
  {
    assert (lines + [line])[..|lines|] == lines;
  }

  /** The timestamped transcript of a whole token list. */
  function TimestampedText(ts: seq<Token>, fmt: int -> string): string {
    JoinLines(TranscriptLines(ts, fmt))
  }

  lemma {:induction false} TerminatedIsJoinedPlusNewline(lines: seq<string>)
    requires lines != []
    ensures Terminated(lines) == JoinLines(lines) + "\n"
  {
    if |lines| > 1 {
      TerminatedIsJoinedPlusNewline(lines[..|lines| - 1]);
    }
  }

  lemma {:induction false} JoinedWellFormed(lines: seq<string>)
    requires lines != [] && forall i :: 0 <= i < |lines| ==> WellFormed(lines[i])
    ensures WellFormed(JoinLines(lines))
  {
    if |lines| > 1 {
      JoinedWellFormed(lines[..|lines| - 1]);
    }
  }

  /** Trimming the collected lines drops exactly the final "\n". */
  lemma TrimTerminated(lines: seq<string>)
    requires forall i :: 0 <= i < |lines| ==> WellFormed(lines[i])
    ensures Trim(Terminated(lines)) == JoinLines(lines)
  {
    if lines != [] {
      TerminatedIsJoinedPlusNewline(lines);
      JoinedWellFormed(lines);
      TrimLastNewline(JoinLines(lines));
    }
  }

  /** A well-formed text followed by "\n" trims back to itself. */
  lemma TrimLastNewline(s: string)
    requires WellFormed(s)
    ensures Trim(s + "\n") == s
  {
    TrimTrailingSpace(s, "\n");
  }

  /** How the reference grows by one token: a terminator closes the
      remainder as a new sentence; any other token extends it. */
  lemma ReferenceSnoc(ts: seq<Token>, t: Token)
    ensures Remainder(ts + [t]) == if IsTerminator(t.word) then [] else Remainder(ts) + [t]
    ensures Sentences(ts + [t]) == Sentences(ts) + if IsTerminator(t.word) then [Remainder(ts) + [t]] else []
  {
    assert (ts + [t])[..|ts|] == ts;
  }

  lemma SentenceLinesSnoc(ts: seq<Token>, t: Token, fmt: int -> string)
    ensures SentenceLines(ts + [t], fmt) == SentenceLines(ts, fmt) + if IsTerminator(t.word) then [SentenceLine(Remainder(ts) + [t], fmt)] else []
  {
    ReferenceSnoc(ts, t);
    if IsTerminator(t.word) {
      var ss, last := Sentences(ts), Remainder(ts) + [t];
      assert (ss + [last])[..|ss|] == ss;
      assert LinesOf(ss + [last], fmt) == LinesOf(ss, fmt) + [SentenceLine(last, fmt)];
    } else {
      assert Sentences(ts + [t]) == Sentences(ts);
      assert SentenceLines(ts, fmt) + [] == SentenceLines(ts, fmt);
    }
  }

  /** A sentence: a non-empty run of tokens whose only terminator is its last. */
  predicate ClosedSentence(s: seq<Token>) {
    s != [] && IsTerminator(s[|s| - 1].word)
    && forall j :: 0 <= j < |s| - 1 ==> !IsTerminator(s[j].word)
  }

  /** The tokens after the last terminator hold no terminator. */
  lemma {:induction false} RemainderOpen(ts: seq<Token>)
    ensures forall j :: 0 <= j < |Remainder(ts)| ==> !IsTerminator(Remainder(ts)[j].word)
  {
    if ts != [] {
      var p, t := ts[..|ts| - 1], ts[|ts| - 1];
      assert ts == p + [t];
      RemainderOpen(p);
      ReferenceSnoc(p, t);
      if !IsTerminator(t.word) {
        var rest, rest' := Remainder(p), Remainder(p) + [t];
        assert Remainder(ts) == rest';
        forall j | 0 <= j < |rest'| ensures !IsTerminator(rest'[j].word) {
          if j < |rest| {
            assert rest'[j] == rest[j];
          }
        }
      }
    }
  }

  /** The split is a partition: the sentences followed by the remainder give
      back the token list, and every sentence ends with its only terminator. */
  lemma {:induction false} SentencesPartition(ts: seq<Token>)
    ensures Concat(Sentences(ts)) + Remainder(ts) == ts
    ensures forall i :: 0 <= i < |Sentences(ts)| ==> ClosedSentence(Sentences(ts)[i])
  {
    if ts != [] {
      var p, t := ts[..|ts| - 1], ts[|ts| - 1];
      assert ts == p + [t];
      SentencesPartition(p);
      ReferenceSnoc(p, t);
      var ss, rest := Sentences(p), Remainder(p);
      assert Concat(ss) + rest + [t] == ts;
      if IsTerminator(t.word) {
        var last := rest + [t];
        RemainderOpen(p);
        assert ClosedSentence(last);
        var ss' := ss + [last];
        assert Sentences(ts) == ss' && Remainder(ts) == [];
        assert ss'[..|ss|] == ss;
        assert Concat(ss') == Concat(ss) + last;
        forall i | 0 <= i < |ss'| ensures ClosedSentence(ss'[i]) {
          if i < |ss| {
            assert ss'[i] == ss[i];
          }
        }
      } else {
        assert Sentences(ts) == ss && Remainder(ts) == rest + [t];
      }
    }
  }

  /** The split is the only such partition: any closed sentences followed by
      a run without terminators that give back `ts` are its sentences and
      its remainder. */
  lemma {:induction false} SplitUnique(ts: seq<Token>, ss: seq<seq<Token>>, r: seq<Token>)
    requires Concat(ss) + r == ts
    requires forall i :: 0 <= i < |ss| ==> ClosedSentence(ss[i])
    requires forall j :: 0 <= j < |r| ==> !IsTerminator(r[j].word)
    ensures ss == Sentences(ts) && r == Remainder(ts)
    decreases |ts|, 1
  {
    if r != [] {
      SplitUniqueOpen(ts, ss, r);
    } else if ss != [] {
      SplitUniqueClosed(ts, ss);
    }
  }

  /** SplitUnique when the partition ends in a non-empty remainder. */
  lemma {:induction false} SplitUniqueOpen(ts: seq<Token>, ss: seq<seq<Token>>, r: seq<Token>)
    requires r != [] && Concat(ss) + r == ts
    requires forall i :: 0 <= i < |ss| ==> ClosedSentence(ss[i])
    requires forall j :: 0 <= j < |r| ==> !IsTerminator(r[j].word)
    ensures ss == Sentences(ts) && r == Remainder(ts)
    decreases |ts|, 0
  {
    var t, r' := r[|r| - 1], r[..|r| - 1];
    var init := Concat(ss) + r';
    assert r == r' + [t];
    assert init + [t] == ts;
    forall j | 0 <= j < |r'| ensures !IsTerminator(r'[j].word) {
      assert r'[j] == r[j];
    }
    SplitUnique(init, ss, r');
    ReferenceSnoc(init, t);
  }

  /** SplitUnique when the partition ends with a closed sentence. */
  lemma {:induction false} SplitUniqueClosed(ts: seq<Token>, ss: seq<seq<Token>>)
    requires ss != [] && Concat(ss) == ts
    requires forall i :: 0 <= i < |ss| ==> ClosedSentence(ss[i])
    ensures ss == Sentences(ts) && [] == Remainder(ts)
    decreases |ts|, 0
  {
    var ss', s := ss[..|ss| - 1], ss[|ss| - 1];
    assert ClosedSentence(s);
    var t, s' := s[|s| - 1], s[..|s| - 1];
    var init := Concat(ss') + s';
    assert s == s' + [t];
    assert Concat(ss) == Concat(ss') + s;
    assert init + [t] == ts;
    forall i | 0 <= i < |ss'| ensures ClosedSentence(ss'[i]) {
      assert ss'[i] == ss[i];
    }
    forall j | 0 <= j < |s'| ensures !IsTerminator(s'[j].word) {
      assert s'[j] == s[j];
    }
    SplitUnique(init, ss', s');
    assert ss == ss' + [s];
    CloseLast(init, t, ss', s');
  }

  /** A terminator closes the remainder as the last sentence. */
  lemma CloseLast(init: seq<Token>, t: Token, ss: seq<seq<Token>>, r: seq<Token>)
    requires IsTerminator(t.word) && Sentences(init) == ss && Remainder(init) == r
    ensures Sentences(init + [t]) == ss + [r + [t]] && Remainder(init + [t]) == []
  {
    ReferenceSnoc(init, t);
  }

  /** The segmenter's state after a token list, in terms of the reference. */
  function StateOf(ts: seq<Token>, fmt: int -> string): Segmenter {
    var rest := Remainder(ts);
    Segmenter(Terminated(SentenceLines(ts, fmt)), Render(rest), FirstStart(rest))
  }

  /** The segmenter fold computes the reference split. */
  lemma {:induction false} FeedMatchesReference(ts: seq<Token>, fmt: int -> string)
    ensures Feed(Fresh, ts, fmt) == StateOf(ts, fmt)
  {
    if ts != [] {
      var p, t := ts[..|ts| - 1], ts[|ts| - 1];
      assert ts == p + [t];
      FeedMatchesReference(p, fmt);
      SentenceLinesSnoc(p, t, fmt);
      ReferenceSnoc(p, t);
      var lines, rest := SentenceLines(p, fmt), Remainder(p);
      var g := Feed(Fresh, p, fmt);
      assert g == Segmenter(Terminated(lines), Render(rest), FirstStart(rest));
      FirstStartSnoc(rest, t);
      var start := FirstStart(rest + [t]);
      assert start == if g.startMs == -1 then t.startMs else g.startMs;
      assert (rest + [t])[..|rest|] == rest;
      var sentence := Render(rest + [t]);
      assert sentence == g.sentence + Piece(t.word);
      if IsTerminator(t.word) {
        var line := SentenceLine(rest + [t], fmt);
        assert line == Line(fmt, start, sentence);
        assert (lines + [line])[..|lines|] == lines;
        assert Terminated(lines + [line]) == Terminated(lines) + line + "\n";
        assert Step(g, t, fmt) == Segmenter(Terminated(lines) + line + "\n", "", -1);
      } else {
        assert lines + [] == lines;
        assert SentenceLines(ts, fmt) == lines && Remainder(ts) == rest + [t];
        assert Step(g, t, fmt) == Segmenter(Terminated(lines), sentence, start);
      }
    }
  }

  /** A sentence closed by a terminator prints a line that is not blank. */
  lemma TerminatedSentenceLine(s: seq<Token>, fmt: int -> string)
    requires ClosedSentence(s)
    ensures WellFormed(SentenceLine(s, fmt))
  {
    var text := Render(s);
    assert text == Render(s[..|s| - 1]) + s[|s| - 1].word;
    assert text[|text| - 1] == s[|s| - 1].word[0];
    TrimSpec(text);
    LineWellFormed(FirstStart(s), text, fmt);
  }

  lemma {:induction false} LinesOfAt(ss: seq<seq<Token>>, i: nat, fmt: int -> string)
    requires i < |ss|
    ensures LinesOf(ss, fmt)[i] == SentenceLine(ss[i], fmt)
  {
    if i < |ss| - 1 {
      LinesOfAt(ss[..|ss| - 1], i, fmt);
    }
  }

  /** Every line the batch builders print starts with '[' and does not end
      in space. */
  lemma TranscriptLinesWellFormed(ts: seq<Token>, fmt: int -> string)
    ensures forall i :: 0 <= i < |TranscriptLines(ts, fmt)| ==> WellFormed(TranscriptLines(ts, fmt)[i])
  {
    SentencesPartition(ts);
    var ss, lines := Sentences(ts), SentenceLines(ts, fmt);
    forall i | 0 <= i < |lines| ensures WellFormed(lines[i]) {
      LinesOfAt(ss, i, fmt);
      TerminatedSentenceLine(ss[i], fmt);
    }
    var rest := Remainder(ts);
    var tail := if Trim(Render(rest)) != [] then [Line(fmt, FirstStart(rest), Render(rest))] else [];
    LineWellFormed(FirstStart(rest), Render(rest), fmt);
    var all := lines + tail;
    assert TranscriptLines(ts, fmt) == all;
    forall i | 0 <= i < |all| ensures WellFormed(all[i]) {
      if i < |lines| {
        assert all[i] == lines[i];
      } else {
        assert all[i] == tail[i - |lines|];
      }
    }
  }

  /** Number of terminator tokens. */
  function Terminators(ts: seq<Token>): nat {
    if ts == [] then 0
    else Terminators(ts[..|ts| - 1]) + if IsTerminator(ts[|ts| - 1].word) then 1 else 0
  }

  /** One sentence line per terminator, plus at most one for the remainder. */
  lemma {:induction false} LineCount(ts: seq<Token>, fmt: int -> string)
    ensures |SentenceLines(ts, fmt)| == Terminators(ts)
    ensures |TranscriptLines(ts, fmt)| == Terminators(ts) + if Trim(Render(Remainder(ts))) != [] then 1 else 0
  {
    if ts != [] {
      var p, t := ts[..|ts| - 1], ts[|ts| - 1];
      assert ts == p + [t];
      SentenceLinesSnoc(p, t, fmt);
      LineCount(p, fmt);
    }
  }

  // ---------------------------------------------------------------------
  // The batch builders.

  /** After the loop the batch builders add the remainder's line when its
      text is not blank and trim the whole: that is the reference transcript. */
  lemma FinishMatchesReference(ts: seq<Token>, fmt: int -> string)
    ensures var g := Feed(Fresh, ts, fmt);
      Trim(g.confirmed + if Trim(g.sentence) != [] then Line(fmt, g.startMs, g.sentence) + "\n" else "")
      == TimestampedText(ts, fmt)
  {
    FeedMatchesReference(ts, fmt);
    var g := Feed(Fresh, ts, fmt);
    var lines, rest := SentenceLines(ts, fmt), Remainder(ts);
    var all := TranscriptLines(ts, fmt);
    var whole := g.confirmed + if Trim(g.sentence) != [] then Line(fmt, g.startMs, g.sentence) + "\n" else "";
    if Trim(g.sentence) != [] {
      var line := Line(fmt, FirstStart(rest), Render(rest));
      assert all == lines + [line];
      TerminatedSnoc(lines, line);
      assert whole == Terminated(all);
    } else {
      assert all == lines;
      assert whole == Terminated(all);
    }
    TranscriptLinesWellFormed(ts, fmt);
    TrimTerminated(all);
  }

  /** The loop both batch builders run; its variables are the segmenter's. */
  method SegmentAll(ts: seq<Token>, fmt: int -> string) returns (r: string)
    ensures r == TimestampedText(ts, fmt)
  {
    var result, sentence, sentenceStartMs := "", "", -1;
    var i := 0;
    while i < |ts|
      invariant 0 <= i <= |ts|
      invariant Segmenter(result, sentence, sentenceStartMs) == Feed(Fresh, ts[..i], fmt)
    {
      var t := ts[i];
      ghost var before := Segmenter(result, sentence, sentenceStartMs);
      if sentenceStartMs == -1 {
        sentenceStartMs := t.startMs;
      }
      if t.word == WORD_BOUNDARY {
        sentence := sentence + " ";
      } else {
        sentence := sentence + t.word;
      }
      if IsTerminator(t.word) {
        var line := "[" + fmt(sentenceStartMs) + "] " + Trim(sentence);
        result := result + line + "\n";
        sentence := "";
        sentenceStartMs := -1;
      }
      assert Segmenter(result, sentence, sentenceStartMs) == Step(before, t, fmt);
      assert ts[..i + 1][..i] == ts[..i];
      i := i + 1;
    }
    assert ts[..i] == ts;
    ghost var g := Segmenter(result, sentence, sentenceStartMs);
    if Trim(sentence) != [] {
      var line := "[" + fmt(sentenceStartMs) + "] " + Trim(sentence);
      result := result + line + "\n";
    }
    assert result == g.confirmed + if Trim(g.sentence) != [] then Line(fmt, g.startMs, g.sentence) + "\n" else "";
    FinishMatchesReference(ts, fmt);
    r := Trim(result);
  }

  /** buildTimestampedText: `parsed` is the JSON array of the timed result,
      None when it or one of its records does not parse (the builder then
      catches the exception and returns ""); `fmt` is formatTimeMs. */
  method BuildTimestampedText(parsed: Option<seq<Token>>, fmt: int -> string) returns (r: string)
    ensures parsed.None? ==> r == ""
    ensures parsed.Some? ==> r == TimestampedText(parsed.value, fmt)
  {
    if parsed.None? {
      return "";
    }
    if |parsed.value| == 0 {
      return "";
    }
    r := SegmentAll(parsed.value, fmt);
  }

  /** buildTimestampedTextFromSpans over the spans loaded for playback;
      `fmt` is formatTimeMs. */
  method BuildTimestampedTextFromSpans(spans: seq<Token>, fmt: int -> string) returns (r: string)
    ensures r == TimestampedText(spans, fmt)
    ensures spans == [] ==> r == ""
  {
    if |spans| == 0 {
      return "";
    }
    r := SegmentAll(spans, fmt);
  }

  /** Both batch builders print the same text for the same tokens, and it has
      one line per terminated sentence plus one for a non-blank remainder. */
  lemma BatchLines(ts: seq<Token>, fmt: int -> string)
    ensures TimestampedText(ts, fmt) == "" <==> TranscriptLines(ts, fmt) == []
    ensures |TranscriptLines(ts, fmt)| == Terminators(ts) + if Trim(Render(Remainder(ts))) != [] then 1 else 0
  {
    LineCount(ts, fmt);
    TranscriptLinesWellFormed(ts, fmt);
    if TranscriptLines(ts, fmt) != [] {
      JoinedWellFormed(TranscriptLines(ts, fmt));
    }
  }

  // ---------------------------------------------------------------------
  // The live display.

  /** What getTimedResultDelta gave: null or "[]" (Absent), a string that is
      not a JSON array (Malformed), or an array whose records may fail to
      parse (None). */
  datatype TimedDelta = Absent | Malformed | Records(records: seq<Option<Token>>)

  /** The tokens of the records before the first one that fails to parse. */
  function ParsedPrefix(records: seq<Option<Token>>): (ts: seq<Token>)
    ensures |ts| <= |records|
    ensures forall i :: 0 <= i < |ts| ==> records[i] == Some(ts[i])
    ensures |ts| < |records| ==> records[|ts|].None?
  {
    if records == [] || records[0].None? then []
    else [records[0].value] + ParsedPrefix(records[1..])
  }

  predicate AllParse(records: seq<Option<Token>>) {
    forall i :: 0 <= i < |records| ==> records[i].Some?
  }

  /** The confirmed part of the display: the finished lines followed by the
      in-progress sentence's line, or the finished lines without their final
      "\n" when no sentence is in progress. */
  function Confirmed(g: Segmenter, fmt: int -> string): string {
    if |g.sentence| > 0 then g.confirmed + Line(fmt, g.startMs, g.sentence)
    else if |g.confirmed| > 0 then g.confirmed[..|g.confirmed| - 1]
    else ""
  }

  /** The partial sentence: what follows the first "\n" of getResultDelta's
      text, trimmed; "" when it is null or has no "\n". */
  function Partial(resultDelta: Option<string>): (r: string)
    ensures resultDelta.None? || IndexOf(resultDelta.value, "\n") == -1 ==> r == ""
    ensures resultDelta.Some? && IndexOf(resultDelta.value, "\n") >= 0 ==>
      var tail := resultDelta.value[IndexOf(resultDelta.value, "\n") + 1..];
      var k := LeadingSpace(tail);
      k + |r| <= |tail| && r == tail[k..k + |r|]
      && (forall i :: 0 <= i < k ==> IsTrimmable(tail[i]))
      && (forall i :: k + |r| <= i < |tail| ==> IsTrimmable(tail[i]))
    ensures r != "" ==> !IsTrimmable(r[0]) && !IsTrimmable(r[|r| - 1])
  {
    match resultDelta
    case None => ""
    case Some(d) =>
      var sep := IndexOf(d, "\n");
      if sep >= 0 then TrimSpec(d[sep + 1..]); Trim(d[sep + 1..]) else ""
  }

  /** The display: confirmed and partial, with "\n" between when both are there. */
  function Combine(confirmed: string, partial: string): (r: string)
    ensures confirmed == "" ==> r == partial
    ensures partial == "" ==> r == confirmed
    ensures confirmed != "" && partial != "" ==>
      |r| == |confirmed| + 1 + |partial| && r[..|confirmed|] == confirmed
      && r[|confirmed|] == '\n' && r[|confirmed| + 1..] == partial
  {
    if confirmed == "" then partial
    else if partial == "" then confirmed
    else confirmed + "\n" + partial
  }

  /** When the in-progress sentence is empty or not blank, the live display's
      confirmed text is exactly what the batch builder prints for the same
      tokens. (A non-empty blank sentence, such as a lone "▁", shows as an
      empty "[time] " line live and is dropped by the batch builder.) */
  lemma LiveMatchesBatch(ts: seq<Token>, fmt: int -> string)
    requires Render(Remainder(ts)) == [] || Trim(Render(Remainder(ts))) != []
    ensures Confirmed(Feed(Fresh, ts, fmt), fmt) == TimestampedText(ts, fmt)
  {
    FeedMatchesReference(ts, fmt);
    var lines, rest := SentenceLines(ts, fmt), Remainder(ts);
    if lines != [] {
      TerminatedIsJoinedPlusNewline(lines);
    }
    if Render(rest) == [] {
      NothingInProgress(ts, fmt);
    } else {
      SentenceInProgress(ts, fmt);
    }
  }

  lemma NothingInProgress(ts: seq<Token>, fmt: int -> string)
    requires Render(Remainder(ts)) == []
    requires SentenceLines(ts, fmt) != [] ==> Terminated(SentenceLines(ts, fmt)) == JoinLines(SentenceLines(ts, fmt)) + "\n"
    ensures Confirmed(StateOf(ts, fmt), fmt) == TimestampedText(ts, fmt)
  {
    var lines := SentenceLines(ts, fmt);
    assert TranscriptLines(ts, fmt) == lines + [];
    assert lines + [] == lines;
    if lines != [] {
      assert Terminated(lines)[..|Terminated(lines)| - 1] == JoinLines(lines);
    }
  }

  lemma SentenceInProgress(ts: seq<Token>, fmt: int -> string)
    requires Trim(Render(Remainder(ts))) != []
    requires SentenceLines(ts, fmt) != [] ==> Terminated(SentenceLines(ts, fmt)) == JoinLines(SentenceLines(ts, fmt)) + "\n"
    ensures Confirmed(StateOf(ts, fmt), fmt) == TimestampedText(ts, fmt)
  {
    var lines, rest := SentenceLines(ts, fmt), Remainder(ts);
    var line := Line(fmt, FirstStart(rest), Render(rest));
    var all := lines + [line];
    assert TranscriptLines(ts, fmt) == all;
    assert all[..|lines|] == lines;
    if lines == [] {
      assert all == [line];
    } else {
      assert JoinLines(all) == JoinLines(lines) + "\n" + line;
    }
  }

  /** Taking one more element of `b` after `a`. */
  lemma AppendSnoc<T>(a: seq<T>, b: seq<T>, i: nat)
    requires i < |b|
    ensures a + b[..i + 1] == a + b[..i] + [b[i]]
  {
    assert b[..i + 1] == b[..i] + [b[i]];
  }

  /** The live display's cache (cachedConfirmedText, cachedInProgressSentence,
      cachedInProgressStartMs), kept across buildLiveDisplay calls. */
  class LiveTranscript {
    /** The time formatter behind the "[hh:mm:ss] " stamps (formatTimeMs). */
    const formatTime: int -> string
    var confirmed: string
    var sentence: string
    var startMs: int
    /** Every token fed since the recording started. */
    ghost var fed: seq<Token>

    ghost predicate Valid()
      reads this
    {
      Segmenter(confirmed, sentence, startMs) == Feed(Fresh, fed, formatTime)
    }

    function State(): Segmenter
      reads this
    {
      Segmenter(confirmed, sentence, startMs)
    }

    constructor ()
      ensures Valid() && formatTime == FormatTimeMs && fed == [] && State() == Fresh
    {
      formatTime := FormatTimeMs;
      confirmed, sentence, startMs := "", "", -1;
      fed := [];
    }

    /** Starting a recording empties the cache. */
    method Restart()
      modifies this
      ensures Valid() && fed == [] && State() == Fresh
    {
      confirmed, sentence, startMs := "", "", -1;
      fed := [];
    }

    /** One token of the delta into the cache: the start is taken when none
        is known, the word (a space for U+2581) is appended, and a terminator
        moves the stamped, trimmed sentence into the confirmed text. */
    method FeedToken(t: Token)
      requires Valid()
      modifies this
      ensures Valid() && fed == old(fed) + [t]
      ensures State() == Step(old(State()), t, formatTime)
    {
      if startMs == -1 {
        startMs := t.startMs;
      }
      if t.word == WORD_BOUNDARY {
        sentence := sentence + " ";
      } else {
        sentence := sentence + t.word;
      }
      if IsTerminator(t.word) {
        var line := "[" + formatTime(startMs) + "] " + Trim(sentence);
        confirmed := confirmed + line + "\n";
        sentence := "";
        startMs := -1;
      }
      assert (fed + [t])[..|fed|] == fed;
      fed := fed + [t];
    }

    /** buildLiveDisplay: feed the new tokens, then build the display. A
        record that fails to parse ends the update (the tokens before it stay
        fed) and the display is "". */
    method BuildLiveDisplay(delta: TimedDelta, resultDelta: Option<string>) returns (display: string)
      requires Valid()
      modifies this
      ensures Valid()
      ensures fed == old(fed) + (if delta.Records? then ParsedPrefix(delta.records) else [])
      ensures State() == Feed(old(State()), if delta.Records? then ParsedPrefix(delta.records) else [], formatTime)
      ensures delta.Malformed? || (delta.Records? && !AllParse(delta.records)) ==> display == ""
      ensures delta.Absent? || (delta.Records? && AllParse(delta.records)) ==>
        display == Combine(Confirmed(State(), formatTime), Partial(resultDelta))
    {
      if delta.Malformed? {
        assert fed + [] == fed;
        return "";
      }
      ghost var before := fed;
      ghost var prefix: seq<Token> := [];
      if delta.Records? {
        var records := delta.records;
        prefix := ParsedPrefix(records);
        var i := 0;
        while i < |records|
          invariant 0 <= i <= |records| && i <= |prefix|
          invariant fed == before + prefix[..i]
          invariant Valid()
        {
          if records[i].None? {
            assert prefix[..i] == prefix;
            FeedAppend(Fresh, before, prefix, formatTime);
            return "";
          }
          var t := records[i].value;
          assert t == prefix[i];
          FeedToken(t);
          AppendSnoc(before, prefix, i);
          i := i + 1;
        }
        assert prefix[..i] == prefix;
        assert AllParse(records);
      } else {
        assert fed == before + prefix;
      }
      FeedAppend(Fresh, before, prefix, formatTime);
      assert State() == Feed(old(State()), prefix, formatTime);
      var c := Confirmed(State(), formatTime);
      var p := Partial(resultDelta);
      display := Combine(c, p);
    }
  }
}
