/** The native recognizer's result bookkeeping (wenet.cc): the global
    decode state, the accumulated result text with its time tags, the JSON
    array of timed word pieces, and the sample counters. A C++ std::string is
    a sequence of bytes, one `char` each here. The decoder itself (feature
    pipeline, model, rescoring) is outside the model: each Decode() call is
    an `Outcome` given as input, and the native FormatTime of a sample count
    is the parameter `formatTime`. */
module Recognizer {
  import opened Wrappers
  import opened Strings
  import opened Pcm

  // ---------------------------------------------------------------------
  // JSON string escaping.

  /** The five characters JsonEscape rewrites. */
  predicate Special(c: char) {
    c == '"' || c == '\\' || c == '\n' || c == '\r' || c == '\t'
  }

  /** One character's escape: a backslash followed by `"`, `\`, `n`, `r` or
      `t` for the five special characters, the character itself otherwise. */
  function Escape(c: char): (r: string)
    ensures Special(c) ==> |r| == 2 && r[0] == '\\'
    ensures c == '"' ==> r[1] == '"'
    ensures c == '\\' ==> r[1] == '\\'
    ensures c == '\n' ==> r[1] == 'n'
    ensures c == '\r' ==> r[1] == 'r'
    ensures c == '\t' ==> r[1] == 't'
    ensures !Special(c) ==> r == [c]
  {
    if c == '"' then "\\\""
    else if c == '\\' then "\\\\"
    else if c == '\n' then "\\n"
    else if c == '\r' then "\\r"
    else if c == '\t' then "\\t"
    else [c]
  }

  /** JsonEscape: each character replaced by its escape, in order. */
  function JsonEscape(s: string): (r: string)
    ensures |s| <= |r| <= 2 * |s|
  {
    if s == [] then [] else Escape(s[0]) + JsonEscape(s[1..])
  }

  /** A string with none of the five special characters is left as it is. */
  lemma {:induction false} EscapeIdentity(s: string)
    requires forall i :: 0 <= i < |s| ==> !Special(s[i])
    ensures JsonEscape(s) == s
  {
    if s != [] {
      EscapeIdentity(s[1..]);
    }
  }

  /** The character a backslash escape stands for. */
  function UnescapeChar(c: char): char {
    if c == 'n' then '\n' else if c == 'r' then '\r' else if c == 't' then '\t' else c
  }

  /** Reading back the escapes JsonEscape writes: a backslash and the next
      character stand for one character, any other character for itself. */
  function Unescape(t: string): string {
    if t == [] then []
    else if |t| >= 2 && t[0] == '\\' then [UnescapeChar(t[1])] + Unescape(t[2..])
    else [t[0]] + Unescape(t[1..])
  }

  /** Un-escaping recovers the input: JsonEscape loses nothing. */
  lemma {:induction false} UnescapeEscape(s: string)
    ensures Unescape(JsonEscape(s)) == s
  {
    if s != [] {
      var e := Escape(s[0]);
      var t := e + JsonEscape(s[1..]);
      UnescapeEscape(s[1..]);
      if Special(s[0]) {
        assert t[0] == '\\' && t[1] == e[1] && t[2..] == JsonEscape(s[1..]);
        assert UnescapeChar(e[1]) == s[0];
      } else {
        assert t[0] == s[0] && t[1..] == JsonEscape(s[1..]);
      }
    }
  }

  /** What a "%s" conversion reads of a std::string's c_str(): the
      characters before the first NUL. */
  function UpToNul(s: string): (r: string)
    ensures |r| <= |s| && r == s[..|r|]
    ensures forall i :: 0 <= i < |r| ==> r[i] != '\0'
    ensures |r| < |s| ==> s[|r|] == '\0'
  {
    if s == [] || s[0] == '\0' then [] else [s[0]] + UpToNul(s[1..])
  }

  /** A string without NUL is read whole. */
  lemma {:induction false} UpToNulWhole(s: string)
    requires forall i :: 0 <= i < |s| ==> s[i] != '\0'
    ensures UpToNul(s) == s
  {
    if s != [] {
      UpToNulWhole(s[1..]);
    }
  }

  // ---------------------------------------------------------------------
  // Timed word-piece records.

  /** The snprintf buffer of AppendWordPiecesToJson, NUL included. */
  const RECORD_BUFFER: int := 256

  datatype WordPiece = WordPiece(word: string, start: int, end: int)

  /** The record {"w":"<word>","s":<start>,"e":<end>} before truncation. */
  function RecordText(wp: WordPiece): string {
    "{\"w\":\"" + UpToNul(JsonEscape(wp.word)) + "\",\"s\":" + IntToString(wp.start)
      + ",\"e\":" + IntToString(wp.end) + "}"
  }

  /** The record as snprintf leaves it in the buffer: cut to
      RECORD_BUFFER - 1 characters. */
  function Record(wp: WordPiece): (r: string)
    ensures 0 < |r| <= RECORD_BUFFER - 1 && r[0] == '{'
    ensures |r| <= |RecordText(wp)| && r == RecordText(wp)[..|r|]
    ensures |RecordText(wp)| < RECORD_BUFFER <==> r == RecordText(wp)
  {
    var full := RecordText(wp);
    if |full| < RECORD_BUFFER then full else full[..RECORD_BUFFER - 1]
  }

  /** A word free of special characters and NULs appears verbatim in a
      record that fits the buffer. */
  lemma RecordShowsWord(wp: WordPiece)
    requires forall i :: 0 <= i < |wp.word| ==> !Special(wp.word[i]) && wp.word[i] != '\0'
    requires |RecordText(wp)| < RECORD_BUFFER
    ensures Record(wp) == "{\"w\":\"" + wp.word + "\",\"s\":" + IntToString(wp.start)
      + ",\"e\":" + IntToString(wp.end) + "}"
  {
    EscapeIdentity(wp.word);
    UpToNulWhole(wp.word);
  }

  /** The record of each piece, in order. */
  function Records(ps: seq<WordPiece>): (rs: seq<string>)
    ensures |rs| == |ps|
    ensures forall i :: 0 <= i < |ps| ==> rs[i] == Record(ps[i])
  {
    seq(|ps|, i requires 0 <= i < |ps| => Record(ps[i]))
  }

  lemma RecordsConcat(a: seq<WordPiece>, b: seq<WordPiece>)
    ensures Records(a + b) == Records(a) + Records(b)
  {
  }

  /** No record is empty. */
  lemma RecordsNonEmpty(ps: seq<WordPiece>)
    ensures forall i :: 0 <= i < |Records(ps)| ==> Records(ps)[i] != []
  {
  }

  /** Strings joined by ",". */
  function JoinComma(rs: seq<string>): string {
    if |rs| == 0 then ""
    else if |rs| == 1 then rs[0]
    else JoinComma(rs[..|rs| - 1]) + "," + rs[|rs| - 1]
  }

  /** The JSON text after appending the records `rs` to `j`: a comma
      between the old text and the new records only when the old text is
      not empty. */
  function Appended(j: string, rs: seq<string>): string {
    if rs == [] then j else if j == [] then JoinComma(rs) else j + "," + JoinComma(rs)
  }

  /** Joining a concatenation is joining the parts with a comma between. */
  lemma {:induction false} JoinCommaConcat(a: seq<string>, b: seq<string>)
    requires a != [] && b != []
    ensures JoinComma(a + b) == JoinComma(a) + "," + JoinComma(b)
    decreases |b|
  {
    var ab := a + b;
    if |b| == 1 {
      assert ab[..|ab| - 1] == a;
    } else {
      var b' := b[..|b| - 1];
      assert ab[..|ab| - 1] == a + b';
      JoinCommaConcat(a, b');
    }
  }

  /** Joining non-empty strings gives a non-empty string. */
  lemma {:induction false} JoinCommaNonEmpty(rs: seq<string>)
    requires rs != [] && forall i :: 0 <= i < |rs| ==> rs[i] != []
    ensures JoinComma(rs) != []
  {
    if |rs| > 1 {
      JoinCommaNonEmpty(rs[..|rs| - 1]);
    }
  }

  /** Appending two lists of non-empty records one after the other is
      appending their concatenation. */
  lemma AppendedAssoc(j: string, a: seq<string>, b: seq<string>)
    requires forall i :: 0 <= i < |a| ==> a[i] != []
    ensures Appended(Appended(j, a), b) == Appended(j, a + b)
  {
    if a == [] {
      assert a + b == b;
    } else if b == [] {
      assert a + b == a;
    } else {
      JoinCommaConcat(a, b);
      JoinCommaNonEmpty(a);
    }
  }

  /** Appending the records of pieces[..i] and then that of pieces[i] is
      appending the records of pieces[..i + 1]. */
  lemma AppendNext(j: string, ps: seq<WordPiece>, i: int)
    requires 0 <= i < |ps|
    ensures Appended(Appended(j, Records(ps[..i])), [Record(ps[i])]) == Appended(j, Records(ps[..i + 1]))
  {
    assert ps[..i + 1] == ps[..i] + [ps[i]];
    RecordsConcat(ps[..i], [ps[i]]);
    RecordsNonEmpty(ps[..i]);
    AppendedAssoc(j, Records(ps[..i]), Records([ps[i]]));
  }

  // ---------------------------------------------------------------------
  // The recognizer's globals.

  /** The decoder states the C++ code distinguishes. */
  datatype DecodeState = EndBatch | Endpoint | EndFeats | WaitFeats

  /** The best hypothesis of the decoder when it decoded something. */
  datatype Hypothesis = Hypothesis(sentence: string, pieces: seq<WordPiece>)

  /** One Decode() call: the state returned and the hypothesis, if any. */
  datatype Outcome = Outcome(state: DecodeState, hyp: Option<Hypothesis>)

  /** A schedule step: the capture thread's acceptWaveform call or one
      pass of the decode thread's loop. */
  datatype Op = Waveform(frame: seq<Sample>) | Decoded(outcome: Outcome)

  /** The values of the globals at one moment. */
  datatype Globals = Globals(state: DecodeState, totalResult: string, timedJson: string,
                             totalSamples: int, endpointStart: int)

  /** The sentence of an outcome ("" when nothing was decoded). */
  function SentenceOf(o: Outcome): string {
    if o.hyp.Some? then o.hyp.value.sentence else ""
  }

  /** The pieces an outcome appends: those of the hypothesis, when the
      outcome closes a segment. */
  function PiecesOf(o: Outcome): seq<WordPiece> {
    if (o.state == EndFeats || o.state == Endpoint) && o.hyp.Some? then o.hyp.value.pieces else []
  }

  /** The time tag " [start-end]" of a closed segment. */
  function Tag(formatTime: int -> string, start: int, end: int): string {
    " [" + formatTime(start) + "-" + formatTime(end) + "]"
  }

  /** The effect of one schedule step on the globals. */
  function Apply(g: Globals, op: Op, formatTime: int -> string): Globals {
    match op
    case Waveform(frame) => g.(totalSamples := g.totalSamples + |frame|)
    case Decoded(o) =>
      var closed := g.totalResult + SentenceOf(o) + Tag(formatTime, g.endpointStart, g.totalSamples);
      if o.state == EndFeats then
        g.(state := o.state, totalResult := closed, timedJson := Appended(g.timedJson, Records(PiecesOf(o))))
      else if o.state == Endpoint then
        g.(state := o.state, totalResult := closed + "\n", timedJson := Appended(g.timedJson, Records(PiecesOf(o))),
           endpointStart := g.totalSamples)
      else
        g.(state := o.state)
  }

  /** The globals after a schedule. */
  function Run(g: Globals, ops: seq<Op>, formatTime: int -> string): Globals {
    if ops == [] then g else Apply(Run(g, ops[..|ops| - 1], formatTime), ops[|ops| - 1], formatTime)
  }

  /** All pieces a schedule appends, in order. */
  function AllPieces(ops: seq<Op>): seq<WordPiece> {
    if ops == [] then []
    else AllPieces(ops[..|ops| - 1]) + (if ops[|ops| - 1].Decoded? then PiecesOf(ops[|ops| - 1].outcome) else [])
  }

  /** All samples a schedule accepts. */
  function AllSamples(ops: seq<Op>): nat {
    if ops == [] then 0
    else AllSamples(ops[..|ops| - 1]) + (if ops[|ops| - 1].Waveform? then |ops[|ops| - 1].frame| else 0)
  }

  /** Over a whole schedule, the timed JSON gains the records of every
      piece of every closed segment, in order and comma-joined. */
  lemma {:induction false} RunTimedJson(g: Globals, ops: seq<Op>, formatTime: int -> string)
    ensures Run(g, ops, formatTime).timedJson == Appended(g.timedJson, Records(AllPieces(ops)))
  {
    if ops != [] {
      var init := ops[..|ops| - 1];
      RunTimedJson(g, init, formatTime);
      var last := ops[|ops| - 1];
      var more := if last.Decoded? then PiecesOf(last.outcome) else [];
      RecordsConcat(AllPieces(init), more);
      RecordsNonEmpty(AllPieces(init));
      AppendedAssoc(g.timedJson, Records(AllPieces(init)), Records(more));
    }
  }

  /** Over a whole schedule, the sample counter gains every accepted
      frame's length. */
  lemma {:induction false} RunSamples(g: Globals, ops: seq<Op>, formatTime: int -> string)
    ensures Run(g, ops, formatTime).totalSamples == g.totalSamples + AllSamples(ops)
  {
    if ops != [] {
      RunSamples(g, ops[..|ops| - 1], formatTime);
    }
  }

  /** The globals right after reset. */
  const Initial: Globals := Globals(EndBatch, "", "", 0, 0)

  /** After reset and a schedule, get_timed_result is the JSON array of the
      records of all appended pieces. */
  lemma SessionTimedResult(ops: seq<Op>, formatTime: int -> string)
    ensures TimedArray(Run(Initial, ops, formatTime).timedJson) == "[" + JoinComma(Records(AllPieces(ops))) + "]"
  {
    RunTimedJson(Initial, ops, formatTime);
  }

  /** get_timed_result's text for a list. */
  function TimedArray(timedJson: string): (r: string)
    ensures |r| == |timedJson| + 2 && r[0] == '[' && r[|r| - 1] == ']' && r[1..|r| - 1] == timedJson
  {
    "[" + timedJson + "]"
  }

  /** Whether a step is a decode returning kEndFeats. */
  predicate IsEndFeats(op: Op) {
    op.Decoded? && op.outcome.state == EndFeats
  }

  /** The native globals and the operations on them. */
  class Recognizer {
    const formatTime: int -> string
    var state: DecodeState
    var totalResult: string
    var timedJson: string
    var totalSamples: int
    var endpointStart: int

    function Snapshot(): Globals
      reads this
    {
      Globals(state, totalResult, timedJson, totalSamples, endpointStart)
    }

    /** The globals as the program starts. */
    constructor (formatTime: int -> string)
      ensures this.formatTime == formatTime && Snapshot() == Initial
    {
      this.formatTime := formatTime;
      state, totalResult, timedJson, totalSamples, endpointStart := EndBatch, "", "", 0, 0;
    }

    /** reset: back to the initial globals (the decoder's own reset is not
        modelled). */
    method Reset()
      modifies this
      ensures state == EndBatch && totalResult == "" && timedJson == ""
      ensures totalSamples == 0 && endpointStart == 0
    {
      state := EndBatch;
      totalResult := "";
      timedJson := "";
      totalSamples := 0;
      endpointStart := 0;
    }

    /** accept_waveform: the sample counter grows by the frame's length. */
    method AcceptWaveform(frame: seq<Sample>)
      modifies this
      ensures totalSamples == old(totalSamples) + |frame|
      ensures state == old(state) && totalResult == old(totalResult) && timedJson == old(timedJson)
      ensures endpointStart == old(endpointStart)
      ensures Snapshot() == Apply(old(Snapshot()), Waveform(frame), formatTime)
    {
      totalSamples := totalSamples + |frame|;
    }

    /** AppendWordPiecesToJson: one record per piece, in order, with a comma
        before each record except at the very start of the list. */
    method AppendWordPieces(pieces: seq<WordPiece>)
      modifies this
      ensures timedJson == Appended(old(timedJson), Records(pieces))
      ensures state == old(state) && totalResult == old(totalResult)
      ensures totalSamples == old(totalSamples) && endpointStart == old(endpointStart)
    {
      var i := 0;
      while i < |pieces|
        invariant 0 <= i <= |pieces|
        invariant timedJson == Appended(old(timedJson), Records(pieces[..i]))
        invariant state == old(state) && totalResult == old(totalResult)
        invariant totalSamples == old(totalSamples) && endpointStart == old(endpointStart)
      {
        AppendRecord(Record(pieces[i]));
        AppendNext(old(timedJson), pieces, i);
        i := i + 1;
      }
      assert pieces[..i] == pieces;
    }

    /** One pass of AppendWordPiecesToJson's loop. */
    method AppendRecord(record: string)
      modifies this
      ensures timedJson == Appended(old(timedJson), [record])
      ensures state == old(state) && totalResult == old(totalResult)
      ensures totalSamples == old(totalSamples) && endpointStart == old(endpointStart)
    {
      if timedJson != [] {
        timedJson := timedJson + ",";
      }
      timedJson := timedJson + record;
    }

    /** One pass of decode_thread_func's loop: the state is the decoder's;
        kEndpoint closes a segment with its tag and a newline and starts the
        next one at the current sample count; kEndFeats closes the last
        segment with its tag and no newline and ends the loop; any other
        state changes nothing else. */
    method DecodeStep(o: Outcome) returns (stop: bool)
      modifies this
      ensures state == o.state && stop == (o.state == EndFeats)
      ensures o.state == EndFeats ==>
        totalResult == old(totalResult) + SentenceOf(o) + Tag(formatTime, old(endpointStart), old(totalSamples))
        && endpointStart == old(endpointStart)
      ensures o.state == Endpoint ==>
        totalResult == old(totalResult) + SentenceOf(o) + Tag(formatTime, old(endpointStart), old(totalSamples)) + "\n"
        && endpointStart == old(totalSamples)
      ensures o.state != EndFeats && o.state != Endpoint ==>
        totalResult == old(totalResult) && endpointStart == old(endpointStart)
      ensures timedJson == Appended(old(timedJson), Records(PiecesOf(o)))
      ensures totalSamples == old(totalSamples)
      ensures Snapshot() == Apply(old(Snapshot()), Decoded(o), formatTime)
    {
      state := o.state;
      var result := "";
      if o.hyp.Some? {
        result := o.hyp.value.sentence;
      }
      if state == EndFeats {
        var tag := Tag(formatTime, endpointStart, totalSamples);
        totalResult := totalResult + result + tag;
        if o.hyp.Some? {
          AppendWordPieces(o.hyp.value.pieces);
        }
        return true;
      } else if state == Endpoint {
        var tag := Tag(formatTime, endpointStart, totalSamples);
        totalResult := totalResult + result + tag + "\n";
        if o.hyp.Some? {
          AppendWordPieces(o.hyp.value.pieces);
        }
        endpointStart := totalSamples;
      }
      return false;
    }

    /** decode_thread_func over a schedule of decode passes interleaved
        with acceptWaveform calls: it runs until a pass returns kEndFeats
        (or the schedule ends), and the globals are then those the steps
        taken produce. */
    method DecodeThread(ops: seq<Op>) returns (n: nat)
      modifies this
      ensures n <= |ops|
      ensures Snapshot() == Run(old(Snapshot()), ops[..n], formatTime)
      ensures forall j :: 0 <= j < n - 1 ==> !IsEndFeats(ops[j])
      ensures n < |ops| ==> 0 < n && IsEndFeats(ops[n - 1])
      ensures (exists j :: 0 <= j < |ops| && IsEndFeats(ops[j])) ==> state == EndFeats
    {
      ghost var g0 := Snapshot();
      n := 0;
      var stop := false;
      while n < |ops| && !stop
        invariant 0 <= n <= |ops|
        invariant Snapshot() == Run(g0, ops[..n], formatTime)
        invariant forall j :: 0 <= j < n ==> (IsEndFeats(ops[j]) <==> stop && j == n - 1)
        invariant stop ==> state == EndFeats && 0 < n && IsEndFeats(ops[n - 1])
      {
        var op := ops[n];
        match op {
          case Waveform(frame) =>
            AcceptWaveform(frame);
          case Decoded(o) =>
            stop := DecodeStep(o);
        }
        assert ops[..n + 1][..n] == ops[..n];
        n := n + 1;
      }
      if exists j :: 0 <= j < |ops| && IsEndFeats(ops[j]) {
        var j :| 0 <= j < |ops| && IsEndFeats(ops[j]);
        if !stop {
          assert false;
        }
      }
    }

    /** get_finished: whether the last decode pass returned kEndFeats. */
    method GetFinished() returns (finished: bool)
      ensures finished <==> state == EndFeats
    {
      finished := state == EndFeats;
    }

    /** get_result: the closed segments followed by the decoder's current
        sentence (`partial`, None when it has decoded nothing). */
    method GetResult(partial: Option<string>) returns (r: string)
      ensures partial.None? ==> r == totalResult
      ensures partial.Some? ==> r == totalResult + partial.value
    {
      var result := "";
      if partial.Some? {
        result := partial.value;
      }
      r := totalResult + result;
    }

    /** get_timed_result: the records as a JSON array. */
    method GetTimedResult() returns (r: string)
      ensures r == TimedArray(timedJson)
      ensures timedJson == "" ==> r == "[]"
    {
      r := "[" + timedJson + "]";
    }
  }
}
