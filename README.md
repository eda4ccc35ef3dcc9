# wenet-android transcript, playback and spectrogram core in Dafny

This project models the core of the wenet Android demo recorder.

The recorder has two halves:

- **Capture and recognition.** While recording, a capture thread reads 16-bit PCM frames from the microphone. It appends their little-endian bytes to the recording's `audio.pcm` and queues them for the native recognizer (`wenet.cc`). The recognizer counts samples and keeps a running text. It keeps every recognized word piece as a JSON record `{"w":..,"s":..,"e":..}`. A live display cuts the pieces into sentences stamped `[hh:mm:ss]`. On the recognizer's final state the timed result becomes the recording's transcript.
- **Playback.** A saved recording is played back from its PCM file. The transcript is laid out as a karaoke text with one span per word, and the word being spoken is highlighted. The recordings list is sorted newest first and can be searched by keyword.

A spectrogram view turns the sample stream into 512-sample windows. It keeps the latest 200 windows in a ring of bitmap columns and draws them oldest first.

The modules follow the source files:

| module | file | models |
|---|---|---|
| `Strings` | strings.dfy | Java `trim`, ASCII `toLowerCase(Locale.ROOT)`, `indexOf`, `%d` and `%02d` |
| `Timing` | timing.dfy | Java's truncating `/` and `%`, `formatTimeMs`, `bytesToMs`, the seek offset |
| `Pcm` | pcm.dfy | little-endian sample bytes, the capture step (`CaptureSession`) |
| `Transcript` | transcript.dfy | sentence segmentation: the live display (`LiveTranscript`) and both batch builders |
| `Karaoke` | karaoke.dfy | `buildKaraokeText` spans, `updateKaraokeHighlight` (`KaraokeView`) |
| `Playback` | playback.dfy | enter playback, resume, pause, stop, seek, the streaming thread, the updater (`Player`) |
| `Recordings` | recordings.dfy | `RecordingManager`: paths, `loadResultText`, `listRecordings`, `searchRecordings` |
| `Spectrogram` | spectrogram.dfy | `SpectrogramView`: sample buffer, column ring, draw plan, thresholds |
| `Recognizer` | recognizer.dfy | `wenet.cc` globals: `JsonEscape`, record building, reset, waveform, decode loop, getters |

Modelling choices:

- Time stamps are printed by a time formatter passed as a parameter `fmt: int -> string`. The Java-side classes that print stamps (`LiveTranscript`, `KaraokeView`, `Player`) hold it as `const formatTime`, and their constructors set it to `Timing.FormatTimeMs`. The native `Recognizer` also holds a `const formatTime`, but its constructor takes it as a parameter, since it stands for the native float formatter. `CaptureSession` and `SpectrogramView` print no stamps and hold no formatter. The formatter itself is proved separately: `FormatTimeMsReadsBack`.
- Threads become explicit schedules. The native decode thread runs over a sequence of operations `Op`. Each operation is either an `acceptWaveform` call or one `Decode()` outcome. The playback thread runs to completion while `isPlaying` holds.
- Inputs the model cannot compute are parameters:
  - a parsed JSON array, as `Option<seq<Token>>` (`None` when the text does not parse);
  - a file's bytes, as `Option<seq<Byte>>` (`None` when the file does not exist);
  - `AudioTrack.write`, as a function from chunk to count;
  - the decoder's `Decode()` result, as an `Outcome`.

## Model

Source paths are relative to the repository root.

| member | source | states |
|---|---|---|
| Strings.TrimSpec | wenet/runtime/android/app/src/main/java/com/mobvoi/wenet/MainActivity.java:734-735 | `trim` returns the slice of the string between the trimmable runs: neither end of the result is a char <= U+0020, and everything cut off is |
| Strings.TrimLeftSpec | wenet/runtime/android/app/src/main/java/com/mobvoi/wenet/MainActivity.java:734-735 | the left cut removes exactly a leading run of trimmable chars and stops at the first other char |
| Strings.TrimRightSpec | wenet/runtime/android/app/src/main/java/com/mobvoi/wenet/MainActivity.java:734-735 | the right cut removes exactly a trailing run of trimmable chars |
| Strings.TrimRightTrailing | wenet/runtime/android/app/src/main/java/com/mobvoi/wenet/MainActivity.java:799-804 | trimming a string whose content ends in a non-space char and is followed only by spaces drops exactly that tail |
| Strings.Lower | wenet/runtime/android/app/src/main/java/com/mobvoi/wenet/RecordingManager.java:96 | lower-casing keeps the length and maps each char on its own (ASCII letters only) |
| Strings.IndexOf | wenet/runtime/android/app/src/main/java/com/mobvoi/wenet/RecordingManager.java:102-103 | `indexOf` is -1 exactly when the pattern occurs nowhere, else the first index where it occurs |
| Strings.NatToStringValue | wenet/runtime/android/app/src/main/cpp/wenet.cc:152-153 | `%d` of a natural number reads back as the number |
| Strings.IntToStringRoundTrip | wenet/runtime/android/app/src/main/cpp/wenet.cc:152-153 | `%d` of any int reads back as that int |
| Strings.Pad2TwoDigits | wenet/runtime/android/app/src/main/java/com/mobvoi/wenet/MainActivity.java:1134 | for 0..99, `%02d` writes exactly two digits that read back as the value |
| Timing.JavaDiv | wenet/runtime/android/app/src/main/java/com/mobvoi/wenet/MainActivity.java:1130-1133 | Java's `/` truncates toward zero: the quotient bounds for negative and non-negative dividends |
| Timing.JavaRem | wenet/runtime/android/app/src/main/java/com/mobvoi/wenet/MainActivity.java:1132-1133 | Java's `%` takes the dividend's sign, its magnitude is below the divisor, and `q * b + r == a` |
| Timing.Int32 | wenet/runtime/android/app/src/main/java/com/mobvoi/wenet/MainActivity.java:1125-1127 | the `(int)` cast keeps the low 32 bits: the result is in int range, congruent to the input, and the identity on int values |
| Timing.ClockOf | wenet/runtime/android/app/src/main/java/com/mobvoi/wenet/MainActivity.java:1129-1134 | hours * 3600 + minutes * 60 + seconds is the truncated whole seconds of `ms`. For ms >= 0, minutes and seconds are in 0..59. For negative ms, all three fields are at most 0 |
| Timing.ClockSplit | wenet/runtime/android/app/src/main/java/com/mobvoi/wenet/MainActivity.java:1130-1133 | hours * 3600 + minutes * 60 + seconds is the whole seconds of `ms` |
| Timing.FormatTimeMsReadsBack | wenet/runtime/android/app/src/main/java/com/mobvoi/wenet/MainActivity.java:1129-1135 | below 100 hours the label is exactly `hh:mm:ss` and its three fields read back as the clock of `ms` |
| Timing.BytesToMs | wenet/runtime/android/app/src/main/java/com/mobvoi/wenet/MainActivity.java:1125-1127 | the result is always in int range, and it is `bytes / 16` for a non-negative count whose time fits in an int |
| Timing.MillisOfBytes | wenet/runtime/android/app/src/main/java/com/mobvoi/wenet/MainActivity.java:1125-1127 | `bytes * 1000 / 16000` is `bytes / 16` for non-negative counts |
| Timing.SeekBytes | wenet/runtime/android/app/src/main/java/com/mobvoi/wenet/MainActivity.java:1075-1079 | the seek target is `16 * ms` clamped to `[0, fileLength]`, and it is even for an even-length file |
| Timing.SeekRawBytes | wenet/runtime/android/app/src/main/java/com/mobvoi/wenet/MainActivity.java:1076-1077 | `(long) ms * 8000 * 2 / 1000` is exactly `16 * ms`, an even number |
| Timing.SeekThenBytesToMs | wenet/runtime/android/app/src/main/java/com/mobvoi/wenet/MainActivity.java:1075-1079 | seeking to a time inside the file and reading the position back gives the same time |
| Pcm.SampleRoundTrip | wenet/runtime/android/app/src/main/java/com/mobvoi/wenet/MainActivity.java:568 | reading back the two little-endian bytes of a sample gives the sample |
| Pcm.BytesRoundTrip | wenet/runtime/android/app/src/main/java/com/mobvoi/wenet/MainActivity.java:988-991 | writing a decoded sample gives back its two bytes |
| Pcm.DecodeAppend | wenet/runtime/android/app/src/main/java/com/mobvoi/wenet/MainActivity.java:988-991 | decoding two pieces, the first of even length, is decoding them together |
| Pcm.EncodeAppend | wenet/runtime/android/app/src/main/java/com/mobvoi/wenet/MainActivity.java:568-569 | the bytes of frames written one after another are the bytes of the frames joined |
| Pcm.DecodeEncode | wenet/runtime/android/app/src/main/java/com/mobvoi/wenet/MainActivity.java:988-991 | playback reads back exactly the samples that capture wrote |
| Pcm.EncodeDecode | wenet/runtime/android/app/src/main/java/com/mobvoi/wenet/MainActivity.java:568-569 | re-encoding decoded bytes gives the bytes back when their length is even |
| Pcm.CaptureEffectAsWritten | wenet/runtime/android/app/src/main/java/com/mobvoi/wenet/MainActivity.java:564-581 | the capture step as written fails exactly for a negative read result other than ERROR_INVALID_OPERATION |
| Pcm.DeadObjectCrashesCapture | wenet/runtime/android/app/src/main/java/com/mobvoi/wenet/MainActivity.java:564-577 | ERROR_DEAD_OBJECT and ERROR from `read` reach `put(buffer, 0, read)` and end the capture thread |
| Pcm.CaptureEffect | wenet/runtime/android/app/src/main/java/com/mobvoi/wenet/MainActivity.java:556-581 | the intended step never fails: a negative result is skipped; otherwise the first `read` samples are queued and, with the file open, their `2 * read` bytes written, which decode back to them |
| Pcm.CaptureEffectAgrees | wenet/runtime/android/app/src/main/java/com/mobvoi/wenet/MainActivity.java:564-581 | wherever the written step does not fail, the intended step does the same |
| Pcm.CaptureSession.Capture | wenet/runtime/android/app/src/main/java/com/mobvoi/wenet/MainActivity.java:556-581 | one capture pass appends the frame to the queue and its bytes to the file, keeping the file equal to the encoding of everything queued |
| Pcm.CaptureSession.PlaybackHearsQueued | wenet/runtime/android/app/src/main/java/com/mobvoi/wenet/MainActivity.java:566-578 | the recorded file decodes to exactly the samples queued for the recognizer |
| Transcript.Step | wenet/runtime/android/app/src/main/java/com/mobvoi/wenet/MainActivity.java:722-738 | a token is a terminator exactly when it flushes a line and resets the sentence and the start to empty and -1 |
| Transcript.LineWellFormed | wenet/runtime/android/app/src/main/java/com/mobvoi/wenet/MainActivity.java:734-735 | a `[time] sentence` line ends in a visible char exactly when the trimmed sentence is not blank |
| Transcript.FeedAppend | wenet/runtime/android/app/src/main/java/com/mobvoi/wenet/MainActivity.java:720-740 | feeding two token runs one after the other is feeding their concatenation |
| Transcript.FeedDeltas | wenet/runtime/android/app/src/main/java/com/mobvoi/wenet/MainActivity.java:720-740 | however the tokens arrive split into deltas, the live cache ends in the state a single delta gives |
| Transcript.SentencesPartition | wenet/runtime/android/app/src/main/java/com/mobvoi/wenet/MainActivity.java:788-795 | the reference split cuts the tokens into closed sentences, each ending at its only terminator, then an open remainder, and they join back to the tokens |
| Transcript.RemainderOpen | wenet/runtime/android/app/src/main/java/com/mobvoi/wenet/MainActivity.java:788-795 | the remainder holds no terminator |
| Transcript.SplitUnique | wenet/runtime/android/app/src/main/java/com/mobvoi/wenet/MainActivity.java:788-795 | that split is the only partition into closed sentences and a terminator-free remainder |
| Transcript.FeedMatchesReference | wenet/runtime/android/app/src/main/java/com/mobvoi/wenet/MainActivity.java:779-797 | the segmenter loop yields one line per reference sentence, the remainder's text and the remainder's first known start |
| Transcript.TerminatedSentenceLine | wenet/runtime/android/app/src/main/java/com/mobvoi/wenet/MainActivity.java:790-791 | a sentence closed by a terminator always prints a well-formed line |
| Transcript.TranscriptLinesWellFormed | wenet/runtime/android/app/src/main/java/com/mobvoi/wenet/MainActivity.java:788-803 | every line the batch builders print starts with `[` and does not end in space |
| Transcript.LineCount | wenet/runtime/android/app/src/main/java/com/mobvoi/wenet/MainActivity.java:788-803 | there is one line per terminator, plus one when the remainder is not blank |
| Transcript.TrimTerminated | wenet/runtime/android/app/src/main/java/com/mobvoi/wenet/MainActivity.java:804 | trimming the collected lines drops exactly the final newline |
| Transcript.FinishMatchesReference | wenet/runtime/android/app/src/main/java/com/mobvoi/wenet/MainActivity.java:799-804 | the code after the loop appends the remainder's line only when it is not blank, then trims, giving the reference transcript |
| Transcript.SegmentAll | wenet/runtime/android/app/src/main/java/com/mobvoi/wenet/MainActivity.java:776-804 | the batch loop returns the reference transcript of the tokens |
| Transcript.BuildTimestampedText | wenet/runtime/android/app/src/main/java/com/mobvoi/wenet/MainActivity.java:773-806 | the result is "" for unparsable JSON, else the reference transcript of the parsed records |
| Transcript.BuildTimestampedTextFromSpans | wenet/runtime/android/app/src/main/java/com/mobvoi/wenet/MainActivity.java:808-832 | the span builder gives the same reference transcript, and "" for no spans |
| Transcript.BatchLines | wenet/runtime/android/app/src/main/java/com/mobvoi/wenet/MainActivity.java:773-832 | the transcript is empty exactly when there are no lines, and it has one line per terminator plus one for a non-blank remainder |
| Transcript.ParsedPrefix | wenet/runtime/android/app/src/main/java/com/mobvoi/wenet/MainActivity.java:721-725 | the tokens taken are the records before the first that fails to parse, in order |
| Transcript.Partial | wenet/runtime/android/app/src/main/java/com/mobvoi/wenet/MainActivity.java:756-763 | the partial text is "" without a result or without a newline in it; otherwise it is the text after the first newline with exactly its leading and trailing trimmable runs cut off, so neither of its ends is trimmable |
| Transcript.Combine | wenet/runtime/android/app/src/main/java/com/mobvoi/wenet/MainActivity.java:765-767 | the display is the non-empty one of confirmed and partial, or both joined by a newline |
| Transcript.LiveMatchesBatch | wenet/runtime/android/app/src/main/java/com/mobvoi/wenet/MainActivity.java:742-751 | when the sentence in progress is empty or not blank, the live confirmed text equals the batch transcript of all tokens fed |
| Transcript.NothingInProgress | wenet/runtime/android/app/src/main/java/com/mobvoi/wenet/MainActivity.java:748-751 | with nothing in progress, the confirmed lines minus their last newline are the batch transcript |
| Transcript.SentenceInProgress | wenet/runtime/android/app/src/main/java/com/mobvoi/wenet/MainActivity.java:744-747 | with a non-blank sentence in progress, the confirmed lines plus its stamped line are the batch transcript |
| Transcript.LiveTranscript.constructor | wenet/runtime/android/app/src/main/java/com/mobvoi/wenet/MainActivity.java:109-111 | the cache starts empty, with start -1 |
| Transcript.LiveTranscript.Restart | wenet/runtime/android/app/src/main/java/com/mobvoi/wenet/MainActivity.java:309-311 | starting a recording empties the cache |
| Transcript.LiveTranscript.FeedToken | wenet/runtime/android/app/src/main/java/com/mobvoi/wenet/MainActivity.java:723-738 | one token moves the cache by exactly one segmenter step |
| Transcript.LiveTranscript.BuildLiveDisplay | wenet/runtime/android/app/src/main/java/com/mobvoi/wenet/MainActivity.java:717-771 | the parsed delta tokens are fed in order. Malformed input gives "" after feeding the parsed prefix. Otherwise the display combines the confirmed text and the partial result |
| Karaoke.Place | wenet/runtime/android/app/src/main/java/com/mobvoi/wenet/MainActivity.java:1153-1175 | a word adds its header and text, and its span starts after the header and ends at the new text end; its partner `PlaceFits` proves that every span then covers exactly its word's text |
| Karaoke.PlaceFits | wenet/runtime/android/app/src/main/java/com/mobvoi/wenet/MainActivity.java:1161-1169 | placing a word keeps every span covering exactly its word's text, in increasing order |
| Karaoke.LayoutSpans | wenet/runtime/android/app/src/main/java/com/mobvoi/wenet/MainActivity.java:1150-1176 | in the laid-out text, span i covers exactly word i (one space for U+2581), and spans do not overlap and come in word order |
| Karaoke.SpansIncrease | wenet/runtime/android/app/src/main/java/com/mobvoi/wenet/MainActivity.java:1161-1169 | a word with visible text starts strictly before every later word |
| Karaoke.PlaceOpening | wenet/runtime/android/app/src/main/java/com/mobvoi/wenet/MainActivity.java:1156-1160 | a word that opens a sentence starts a new stamped line, after a newline unless it is the first |
| Karaoke.PlaceContinuing | wenet/runtime/android/app/src/main/java/com/mobvoi/wenet/MainActivity.java:1163-1169 | a word inside a sentence extends that sentence's line |
| Karaoke.KaraokeMatchesSentences | wenet/runtime/android/app/src/main/java/com/mobvoi/wenet/MainActivity.java:1140-1176 | when every word has a start, the karaoke text is the reference sentences' stamped lines (untrimmed), then the remainder's, joined by newlines |
| Karaoke.FirstCovering | wenet/runtime/android/app/src/main/java/com/mobvoi/wenet/MainActivity.java:1212-1218 | the first word whose interval `[start, end)` holds the time, or -1 when none does |
| Karaoke.LastStarted | wenet/runtime/android/app/src/main/java/com/mobvoi/wenet/MainActivity.java:1221-1227 | the last word that has started by the time, or -1 when none has |
| Karaoke.HighlightIndex | wenet/runtime/android/app/src/main/java/com/mobvoi/wenet/MainActivity.java:1211-1228 | the first word being spoken; otherwise, for a positive time, the last started word; otherwise -1 |
| Karaoke.ResolveHighlight | wenet/runtime/android/app/src/main/java/com/mobvoi/wenet/MainActivity.java:1211-1228 | the two search loops compute that index |
| Karaoke.FillSpans | wenet/runtime/android/app/src/main/java/com/mobvoi/wenet/MainActivity.java:1150-1176 | the layout loop fills the span arrays and the text of the word list's layout |
| Karaoke.Without | wenet/runtime/android/app/src/main/java/com/mobvoi/wenet/MainActivity.java:1233-1238 | `removeSpan` leaves every other span and removes the given one |
| Karaoke.KaraokeView.constructor | wenet/runtime/android/app/src/main/java/com/mobvoi/wenet/MainActivity.java:126-133 | no words, no spans, no highlight |
| Karaoke.KaraokeView.Show | wenet/runtime/android/app/src/main/java/com/mobvoi/wenet/MainActivity.java:874-875 | showing words lays them out and highlights the word at time 0 |
| Karaoke.KaraokeView.BuildKaraokeText | wenet/runtime/android/app/src/main/java/com/mobvoi/wenet/MainActivity.java:1140-1202 | nothing changes for no words. Otherwise the text and span arrays are the layout of the words, and the highlight is cleared |
| Karaoke.KaraokeView.UpdateHighlight | wenet/runtime/android/app/src/main/java/com/mobvoi/wenet/MainActivity.java:1205-1257 | for no words, or when the index is unchanged, nothing changes. Otherwise the old marker is removed and one marker is placed on the highlighted word's span, or none for -1 |
| Karaoke.KaraokeView.AtMostOneMarker | wenet/runtime/android/app/src/main/java/com/mobvoi/wenet/MainActivity.java:1232-1254 | at most one marker pair is ever attached to the text |
| Karaoke.MarkerCoversWord | wenet/runtime/android/app/src/main/java/com/mobvoi/wenet/MainActivity.java:1241-1250 | the marker covers exactly the highlighted word's text |
| Playback.StreamFile | wenet/runtime/android/app/src/main/java/com/mobvoi/wenet/MainActivity.java:972-1004 | the position only moves forward within the file. With a track that takes whole chunks or fails, the bytes heard are the file from the start position on, and reaching the end means all of it |
| Playback.Player.constructor | wenet/runtime/android/app/src/main/java/com/mobvoi/wenet/MainActivity.java:115-124 | no recording, no audio, position 0, not playing |
| Playback.Player.EnterPlaybackMode | wenet/runtime/android/app/src/main/java/com/mobvoi/wenet/MainActivity.java:836-876 | a missing audio file changes only the selected name: path, bytes, length, position, playing flag, transcript and karaoke view are all kept. Otherwise the file is opened at position 0, not playing, and the transcript and the karaoke view are built from the spans with the word at 0 highlighted |
| Playback.Player.Present | wenet/runtime/android/app/src/main/java/com/mobvoi/wenet/MainActivity.java:850-876 | the transcript and karaoke half of entering playback: text from the spans, word at 0 highlighted, player state unchanged |
| Playback.Player.Open | wenet/runtime/android/app/src/main/java/com/mobvoi/wenet/MainActivity.java:846-871 | the file's path, bytes and length are taken, with position 0 and not playing |
| Playback.Player.Resume | wenet/runtime/android/app/src/main/java/com/mobvoi/wenet/MainActivity.java:903-1031 | nothing happens without an audio path. Otherwise it is playing with an open track, a started thread and an active updater, at the same position |
| Playback.Player.PlaybackThread | wenet/runtime/android/app/src/main/java/com/mobvoi/wenet/MainActivity.java:966-1026 | The position only moves forward to what the track took. Reaching the end stops playback, rewinds to 0 and highlights the word at 0. Stopping early keeps playing at the reached position |
| Playback.Player.Rewind | wenet/runtime/android/app/src/main/java/com/mobvoi/wenet/MainActivity.java:1011-1024 | at end of file: not playing, position 0, the word at 0 highlighted, the file kept |
| Playback.Player.Pause | wenet/runtime/android/app/src/main/java/com/mobvoi/wenet/MainActivity.java:1034-1054 | not playing, track released, thread joined, updater stopped, position kept |
| Playback.Player.Stop | wenet/runtime/android/app/src/main/java/com/mobvoi/wenet/MainActivity.java:1056-1073 | not playing, track released, updater stopped, position 0, no audio path, length 0 |
| Playback.Player.Seek | wenet/runtime/android/app/src/main/java/com/mobvoi/wenet/MainActivity.java:1075-1092 | the position is the clamped even offset of the time, playing resumes only if it was on (the track flags are kept when it was off), the word at that time is highlighted, and the file, word list, recording and transcript are kept |
| Playback.Player.Tick | wenet/runtime/android/app/src/main/java/com/mobvoi/wenet/MainActivity.java:1094-1108 | while playing, the word at the current position's time is highlighted, otherwise nothing changes |
| Playback.Player.ClickWord | wenet/runtime/android/app/src/main/java/com/mobvoi/wenet/MainActivity.java:1186-1191 | a click seeks to the word's start and highlights that word in the unchanged word list; with audio it plays with track, thread and updater on, without audio nothing plays; the file, recording and transcript are kept |
| Playback.ProgressWithinDuration | wenet/runtime/android/app/src/main/java/com/mobvoi/wenet/MainActivity.java:1117-1123 | the seekbar progress stays between 0 and its maximum |
| Recordings.PathsDistinct | wenet/runtime/android/app/src/main/java/com/mobvoi/wenet/RecordingManager.java:50-56 | different recordings have different audio and result paths, and no audio path is a result path |
| Recordings.WordsTextIsRender | wenet/runtime/android/app/src/main/java/com/mobvoi/wenet/RecordingManager.java:69-76 | the search text of a result file is its transcript's rendered word text |
| Recordings.LoadResultText | wenet/runtime/android/app/src/main/java/com/mobvoi/wenet/RecordingManager.java:59-81 | "" for a missing or unparsable file, else the trimmed joined words, with no space at either end |
| Recordings.LexLessTotal | wenet/runtime/android/app/src/main/java/com/mobvoi/wenet/RecordingManager.java:46 | `compareTo` orders any two distinct names, and it is irreflexive and transitive (LexLessIrreflexive, LexLessTransitive) |
| Recordings.InsertDescending | wenet/runtime/android/app/src/main/java/com/mobvoi/wenet/RecordingManager.java:46 | inserting into a descending list keeps it descending and adds exactly that name |
| Recordings.ListRecordings | wenet/runtime/android/app/src/main/java/com/mobvoi/wenet/RecordingManager.java:39-48 | [] for a missing directory, else a descending permutation of the entries |
| Recordings.DigitsOrder | wenet/runtime/android/app/src/main/java/com/mobvoi/wenet/RecordingManager.java:32 | for digit strings of the same length, lexicographic order is numeric order |
| Recordings.NewestFirst | wenet/runtime/android/app/src/main/java/com/mobvoi/wenet/RecordingManager.java:30-48 | between `yyyyMMdd_HHmmss` names, the sort order is the order of their date-times, so the list is newest first |
| Recordings.ListPreview | wenet/runtime/android/app/src/main/java/com/mobvoi/wenet/RecordingManager.java:100-101 | "(no text)" for empty text, the text itself when at most 60 chars, and the first 60 chars plus "..." otherwise |
| Recordings.Window | wenet/runtime/android/app/src/main/java/com/mobvoi/wenet/RecordingManager.java:104-105 | the snippet window holds the match, cut at 20 chars before and 40 after, and is clipped to the text |
| Recordings.SnippetShowsMatch | wenet/runtime/android/app/src/main/java/com/mobvoi/wenet/RecordingManager.java:102-107 | the preview shows the matched text, which lower-cases to the keyword, with "..." exactly where text was cut |
| Recordings.SearchEntry | wenet/runtime/android/app/src/main/java/com/mobvoi/wenet/RecordingManager.java:98-108 | a recording is listed exactly when the keyword is blank or found, with the entry's preview |
| Recordings.SearchRecordings | wenet/runtime/android/app/src/main/java/com/mobvoi/wenet/RecordingManager.java:93-111 | the loop returns the entries of the wanted recordings in listing order |
| Recordings.SearchSelects | wenet/runtime/android/app/src/main/java/com/mobvoi/wenet/RecordingManager.java:97-109 | the results keep the listing's order and hold exactly the wanted names |
| Recordings.BlankKeywordListsAll | wenet/runtime/android/app/src/main/java/com/mobvoi/wenet/RecordingManager.java:99-101 | a blank keyword lists every recording, in order, each with its list preview |
| Spectrogram.RowOfBinBijective | wenet/runtime/android/app/src/main/java/com/mobvoi/wenet/SpectrogramView.java:97 | bins map one-to-one onto rows, bin 0 at the bottom row |
| Spectrogram.FillColumn | wenet/runtime/android/app/src/main/java/com/mobvoi/wenet/SpectrogramView.java:87-98 | every bin's colour lands in its row, and every row holds its bin's colour |
| Spectrogram.DrawPlan | wenet/runtime/android/app/src/main/java/com/mobvoi/wenet/SpectrogramView.java:171-211 | at most two strips, and nothing is drawn exactly for an empty view or an empty ring |
| Spectrogram.PlanOrder | wenet/runtime/android/app/src/main/java/com/mobvoi/wenet/SpectrogramView.java:186-210 | the columns drawn, left to right, are the ring from the oldest column to the newest |
| Spectrogram.PlanWrapped | wenet/runtime/android/app/src/main/java/com/mobvoi/wenet/SpectrogramView.java:194-209 | after wrapping, the columns drawn are `[column, 200)` then `[0, column)` |
| Spectrogram.Rotation | wenet/runtime/android/app/src/main/java/com/mobvoi/wenet/SpectrogramView.java:195-196 | those two parts are the ring read from `column` onwards |
| Spectrogram.PlanTiles | wenet/runtime/android/app/src/main/java/com/mobvoi/wenet/SpectrogramView.java:197-209 | the strips tile the view width without gap or overlap, and the first strip's width is proportional to its columns |
| Spectrogram.SpectrogramView.constructor | wenet/runtime/android/app/src/main/java/com/mobvoi/wenet/SpectrogramView.java:20-32 | empty buffer and ring, thresholds -10 and 80 dB |
| Spectrogram.SpectrogramView.ProcessWindow | wenet/runtime/android/app/src/main/java/com/mobvoi/wenet/SpectrogramView.java:78-111 | the full buffer becomes the column at `currentColumn`, which advances modulo 200 and sets `wrapped` on the wrap |
| Spectrogram.SpectrogramView.Push | wenet/runtime/android/app/src/main/java/com/mobvoi/wenet/SpectrogramView.java:70-74 | one sample is stored, and a full buffer is processed and emptied |
| Spectrogram.SpectrogramView.AddSamples | wenet/runtime/android/app/src/main/java/com/mobvoi/wenet/SpectrogramView.java:67-76 | null or a length of at most 0 changes nothing. Otherwise the first `length` samples are fed, `(count + length) / 512` windows are processed, and `(count + length) % 512` samples stay buffered |
| Spectrogram.SpectrogramView.Clear | wenet/runtime/android/app/src/main/java/com/mobvoi/wenet/SpectrogramView.java:221-229 | buffer, ring and bitmap emptied, thresholds kept |
| Spectrogram.SpectrogramView.SetDbFloor | wenet/runtime/android/app/src/main/java/com/mobvoi/wenet/SpectrogramView.java:213-215 | only the lower threshold changes |
| Spectrogram.SpectrogramView.SetDbCeil | wenet/runtime/android/app/src/main/java/com/mobvoi/wenet/SpectrogramView.java:217-219 | only the upper threshold changes |
| Spectrogram.SpectrogramView.RingHoldsLatest | wenet/runtime/android/app/src/main/java/com/mobvoi/wenet/SpectrogramView.java:101-108 | read in drawing order, the ring holds the latest min(n, 200) windows, oldest first |
| Spectrogram.ColumnsApart | wenet/runtime/android/app/src/main/java/com/mobvoi/wenet/SpectrogramView.java:103-107 | windows fewer than 200 apart never share a column |
| Recognizer.Escape | wenet/runtime/android/app/src/main/cpp/wenet.cc:134-141 | `"`, `\`, newline, carriage return and tab become a backslash followed by `"`, `\`, `n`, `r` and `t`; every other char is kept |
| Recognizer.JsonEscape | wenet/runtime/android/app/src/main/cpp/wenet.cc:130-144 | the output is at least as long as the input and at most twice as long |
| Recognizer.EscapeIdentity | wenet/runtime/android/app/src/main/cpp/wenet.cc:130-144 | a string without special chars is left as it is |
| Recognizer.UnescapeEscape | wenet/runtime/android/app/src/main/cpp/wenet.cc:130-144 | un-escaping recovers the input, so escaping loses nothing |
| Recognizer.UpToNul | wenet/runtime/android/app/src/main/cpp/wenet.cc:152-153 | `%s` of `c_str()` reads the prefix up to the first NUL |
| Recognizer.Record | wenet/runtime/android/app/src/main/cpp/wenet.cc:151-153 | a record of 1..255 chars starting `{`, a prefix of the full record, and the full record exactly when that fits the 256-byte buffer |
| Recognizer.RecordShowsWord | wenet/runtime/android/app/src/main/cpp/wenet.cc:152-153 | a plain word that fits appears verbatim with its start and end in decimal |
| Recognizer.Records | wenet/runtime/android/app/src/main/cpp/wenet.cc:147-157 | one record per piece, in order |
| Recognizer.JoinCommaConcat | wenet/runtime/android/app/src/main/cpp/wenet.cc:148-150 | joining two lists of records puts one comma between them |
| Recognizer.AppendedAssoc | wenet/runtime/android/app/src/main/cpp/wenet.cc:146-158 | appending two batches of records one after the other is appending them together |
| Recognizer.RunTimedJson | wenet/runtime/android/app/src/main/cpp/wenet.cc:160-197 | over any schedule the timed JSON gains the records of every decoded piece, in order |
| Recognizer.RunSamples | wenet/runtime/android/app/src/main/cpp/wenet.cc:116-122 | over any schedule the sample counter gains every accepted sample |
| Recognizer.SessionTimedResult | wenet/runtime/android/app/src/main/cpp/wenet.cc:221-224 | after reset and a schedule, the timed result is the JSON array of all pieces' records |
| Recognizer.TimedArray | wenet/runtime/android/app/src/main/cpp/wenet.cc:222 | the list inside brackets |
| Recognizer.Recognizer.constructor | wenet/runtime/android/app/src/main/cpp/wenet.cc:39-43 | the globals' initial values |
| Recognizer.Recognizer.Reset | wenet/runtime/android/app/src/main/cpp/wenet.cc:106-114 | state kEndBatch, empty texts, zero counters |
| Recognizer.Recognizer.AcceptWaveform | wenet/runtime/android/app/src/main/cpp/wenet.cc:116-122 | the sample counter grows by the frame length and nothing else changes |
| Recognizer.Recognizer.AppendWordPieces | wenet/runtime/android/app/src/main/cpp/wenet.cc:146-158 | the timed JSON gains one record per piece, comma-separated, with no leading comma |
| Recognizer.Recognizer.DecodeStep | wenet/runtime/android/app/src/main/cpp/wenet.cc:161-195 | kEndFeats closes the text with a time tag and stops. kEndpoint closes it with a tag and newline and moves the segment start. Any other state changes only the state. The pieces are appended when something was decoded |
| Recognizer.Recognizer.DecodeThread | wenet/runtime/android/app/src/main/cpp/wenet.cc:160-197 | the loop applies the schedule up to and including the first kEndFeats, and ends in kEndFeats when one occurs |
| Recognizer.Recognizer.GetFinished | wenet/runtime/android/app/src/main/cpp/wenet.cc:204-210 | true exactly in state kEndFeats |
| Recognizer.Recognizer.GetResult | wenet/runtime/android/app/src/main/cpp/wenet.cc:212-219 | the closed text followed by the current hypothesis, if any |
| Recognizer.Recognizer.GetTimedResult | wenet/runtime/android/app/src/main/cpp/wenet.cc:221-224 | the records as a JSON array, `[]` when there are none |

## Left out

- User interface: views, buttons, dialogs, toasts, scrolling, text colours, the seekbar widget, the `VoiceRectView` level meter, `calculateDb`, and the recordings dialog adapter.
- Concurrency: the capture, recognizer, decode, playback and UI threads run in parallel in the source. The model runs each one as a sequence of steps: the decode thread over an explicit schedule, and the playback thread to completion. `synchronized`, `volatile`, thread joins and the blocking queue are not modelled.
- Floating point: the FFT, the Hann window, the magnitude-to-dB scale and the heatmap colours. A column of the spectrogram bitmap holds the window of samples it was computed from. `FillColumn` takes the colours as input. The dB thresholds are `real`.
- The native `FormatTime` (`%02d:%04.1f` of a float) is a parameter of the decode loop, since it is float formatting.
- Decoder internals are not modelled: model loading (`init`), feature extraction, `Decode()`, `Rescoring()` and `ResetContinuousDecoding()`. A decode pass is an `Outcome` given as input. `get_result`'s current hypothesis is an input too.
- `set_input_finished`, `start_decode` and the JNI registration are bookkeeping with no state of this model.
- `Recognize.getTimedResultDelta` and `getResultDelta` are called by the live display but are not part of `wenet.cc`. Their results are inputs to `BuildLiveDisplay`.
- Timing.BytesToMs: the Java `bytes * 1000L` is a 64-bit product. Its overflow, for byte counts above about 9.2 * 10^15, is not modelled, since no audio file reaches that size.
- Recognizer.AcceptWaveform: `total_samples` is a C++ `int`. Its overflow after about 37 hours of audio at 16 kHz is not modelled.
- File system: directory creation, `createRecordingDir`'s clock, `deleteRecording`, and Java `File` path normalisation. Paths are modelled as `<filesDir>/recordings/<name>/<file>` for an absolute, normalised files directory.
- Text encoding: strings are sequences of chars. UTF-8 decoding, UTF-16 surrogates in `compareTo`, and locale-specific lower-casing of non-ASCII letters are not modelled.
- Playback.Player.PlaybackThread: `FileInputStream.skip` is assumed to reach the start position, and `read` to fill the requested count. A short read is modelled only as the end of the data. The spectrogram feed in this loop and the AudioTrack buffer size are not modelled.
- Playback.Player.Resume: Bluetooth and speaker routing, `AudioTrack` construction and `release` are bookkeeping flags only.
- Pcm.CaptureSession.Capture: the spectrogram and level-meter feed of the capture loop is not modelled. Flushing and closing the PCM file and `IOException`s while writing are not modelled either.
- The sample rate: the Java code plays and times audio at 8000 Hz, while `wenet.cc` declares 16000 Hz. The model follows each file's own constant.

## Findings

| source | as written | input that shows it | evidently intended | confidence | as-written member | corrected member |
|---|---|---|---|---|---|---|
| wenet/runtime/android/app/src/main/java/com/mobvoi/wenet/MainActivity.java:564-581 | only `ERROR_INVALID_OPERATION` is filtered out, so any other negative `read` is used as a length in `put(buffer, 0, read)` and `new short[read]`, which throws an unchecked exception and ends the capture thread | `read == ERROR_DEAD_OBJECT` (-6), as when the microphone is disconnected | skip every negative result, as for `ERROR_INVALID_OPERATION` | not executed | Pcm.DeadObjectCrashesCapture | Pcm.CaptureEffect |
