/** Playback of a saved recording (MainActivity.java's playback section): the
    player's state — the audio path, the file length, the byte position and
    the playing flag — driven by resume, pause, stop, seek and the playback
    thread that streams the file to the audio track and ends at end of file. */
module Playback {
  import opened Wrappers
  import opened Timing
  import opened Pcm
  import opened Transcript
  import opened Karaoke
  import opened Recordings

  function Min(a: int, b: int): int {
    if a < b then a else b
  }

  /** The playback thread's streaming loop: from byte `start` of the file,
      read chunks of at most `bufSize` bytes and hand each to the audio
      track's `write`, which reports how many bytes it took (at most as many
      as it was given; zero or less is an error). Returns the position the
      loop reached and the bytes the track took. `stream` is where the file
      stream stands: bytes a partial write left over are not read again. */
  method StreamFile(audio: seq<Byte>, start: int, bufSize: int, write: seq<Byte> -> int)
    returns (pos: int, played: seq<Byte>)
    requires 0 <= start <= |audio| && bufSize > 0
    requires forall c :: write(c) <= |c|
    ensures start <= pos <= |audio| && |played| == pos - start
    ensures (forall c :: write(c) == |c| || write(c) <= 0) ==> played == audio[start..pos]
    ensures (forall c :: c != [] ==> write(c) == |c|) ==> pos == |audio| && played == audio[start..]
  {
    var fileLength := |audio|;
    pos, played := start, [];
    var stream := start;
    while pos < fileLength
      invariant start <= pos <= stream <= fileLength && |played| == pos - start
      invariant (forall c :: write(c) == |c| || write(c) <= 0) ==> stream == pos && played == audio[start..pos]
      invariant (forall c :: c != [] ==> write(c) == |c|) ==> stream == pos && played == audio[start..pos]
      decreases fileLength - pos
    {
      var toRead := Min(bufSize, fileLength - pos);
      var bytesRead := if stream < |audio| then Min(toRead, |audio| - stream) else -1;
      if bytesRead <= 0 {
        break;
      }
      var chunk := audio[stream..stream + bytesRead];
      ghost var aligned := stream == pos;
      stream := stream + bytesRead;
      var written := write(chunk);
      if written > 0 {
        if aligned {
          SliceJoin(audio, start, pos, bytesRead, written);
        }
        pos := pos + written;
        played := played + chunk[..written];
      } else {
        break;
      }
    }
  }

  /** Appending the first `n` of the `m` elements that follow a slice
      extends the slice by `n`. */
  lemma SliceJoin<T>(s: seq<T>, i: int, j: int, m: int, n: int)
    requires 0 <= i <= j && 0 <= n <= m && j + m <= |s|
    ensures s[i..j] + s[j..j + m][..n] == s[i..j + n]
  {
    assert s[j..j + m][..n] == s[j..j + n];
  }

  /** The player part of the activity: the recording it plays, the audio
      file's bytes and length, the byte position, the playing flag, and
      whether an audio track, a playback thread and a UI updater are held.
      `heard` is every byte the audio track has taken. */
  class Player {
    const view: KaraokeView
    /** The time formatter behind the "[hh:mm:ss] " stamps (formatTimeMs). */
    const formatTime: int -> string
    var recording: Option<string>
    var audioPath: Option<string>
    var audio: seq<Byte>
    var fileLength: int
    var position: int
    var isPlaying: bool
    var trackOpen: bool
    var threadStarted: bool
    var updaterActive: bool
    var timestamped: string
    ghost var heard: seq<Byte>

    /** The position lies within the file, which is the one the path names;
        without a path there is no file and nothing plays. */
    ghost predicate Valid()
      reads this
    {
      0 <= position <= fileLength
      && (audioPath.None? ==> fileLength == 0 && position == 0 && !isPlaying)
      && (audioPath.Some? ==> fileLength == |audio|)
    }

    constructor (view: KaraokeView)
      ensures Valid() && this.view == view && formatTime == FormatTimeMs
      ensures recording.None? && audioPath.None? && fileLength == 0 && position == 0
      ensures !isPlaying && !trackOpen && !threadStarted && !updaterActive && heard == []
    {
      this.view := view;
      formatTime := FormatTimeMs;
      recording, audioPath, audio := None, None, [];
      fileLength, position := 0, 0;
      isPlaying, trackOpen, threadStarted, updaterActive := false, false, false, false;
      timestamped := "";
      heard := [];
    }

    /** enterPlaybackMode: select the recording `name`; when its audio file
        exists (`file` holds its bytes) take its path and length, show its
        word spans as karaoke text highlighted at 0 ms, and stand at the
        start, not playing. A missing file changes nothing else. */
    method EnterPlaybackMode(filesDir: string, name: string, file: Option<seq<Byte>>, spans: seq<Token>)
      requires Valid() && view.Valid()
      modifies this, view
      ensures Valid() && view.Valid() && recording == Some(name)
      ensures file.None? ==> audioPath == old(audioPath) && position == old(position) && isPlaying == old(isPlaying)
      ensures file.None? ==> audio == old(audio) && fileLength == old(fileLength) && timestamped == old(timestamped)
      ensures file.None? ==> unchanged(view)
      ensures file.Some? ==> audioPath == Some(AudioPath(filesDir, name)) && audio == file.value
      ensures file.Some? ==> fileLength == |file.value| && position == 0 && !isPlaying
      ensures file.Some? ==> view.words == spans && timestamped == TimestampedText(spans, formatTime)
      ensures file.Some? && spans != [] ==> view.lastHighlight == HighlightIndex(spans, 0)
      ensures trackOpen == old(trackOpen) && threadStarted == old(threadStarted) && updaterActive == old(updaterActive)
      ensures heard == old(heard)
    {
      recording := Some(name);
      if file.None? {
        return;
      }
      Open(AudioPath(filesDir, name), file.value);
      Present(spans);
    }

    /** The transcript half of enterPlaybackMode: the karaoke text of the
        spans, highlighted at 0 ms, and their timestamped text. */
    method Present(spans: seq<Token>)
      requires view.Valid()
      modifies this, view
      ensures view.Valid() && view.words == spans && timestamped == TimestampedText(spans, formatTime)
      ensures spans != [] ==> view.lastHighlight == HighlightIndex(spans, 0)
      ensures recording == old(recording) && audioPath == old(audioPath) && audio == old(audio)
      ensures fileLength == old(fileLength) && position == old(position) && isPlaying == old(isPlaying)
      ensures trackOpen == old(trackOpen) && threadStarted == old(threadStarted) && updaterActive == old(updaterActive)
      ensures heard == old(heard)
    {
      view.Show(spans);
      timestamped := BuildTimestampedTextFromSpans(spans, formatTime);
    }

    /** The player half of enterPlaybackMode: take the audio file at `path`,
        stand at its start, not playing. */
    method Open(path: string, bytes: seq<Byte>)
      modifies this
      ensures Valid() && audioPath == Some(path) && audio == bytes && fileLength == |bytes|
      ensures position == 0 && !isPlaying
      ensures trackOpen == old(trackOpen) && threadStarted == old(threadStarted) && updaterActive == old(updaterActive)
      ensures heard == old(heard) && recording == old(recording) && timestamped == old(timestamped)
    {
      audioPath, audio, fileLength := Some(path), bytes, |bytes|;
      position, isPlaying := 0, false;
    }

    /** resumePlayback: with no audio path nothing happens; otherwise start
        playing from the current position, with a new audio track, playback
        thread and UI updater. */
    method Resume()
      requires Valid()
      modifies this
      ensures Valid()
      ensures audioPath.None? ==> isPlaying == old(isPlaying) && trackOpen == old(trackOpen)
      ensures audioPath.None? ==> threadStarted == old(threadStarted) && updaterActive == old(updaterActive)
      ensures audioPath.Some? ==> isPlaying && trackOpen && threadStarted && updaterActive
      ensures audioPath == old(audioPath) && audio == old(audio) && fileLength == old(fileLength)
      ensures position == old(position) && heard == old(heard) && recording == old(recording)
      ensures timestamped == old(timestamped)
    {
      if audioPath.None? {
        return;
      }
      isPlaying := true;
      trackOpen := true;
      threadStarted := true;
      updaterActive := true;
    }

    /** The playback thread with `write` standing for the audio track and
        `bufSize` for its buffer size: stream the file from the position
        while playing, record the position reached, and at end of file stop
        playing, go back to the start and highlight the word at 0 ms. A write
        error ends the thread but leaves the player marked as playing at the
        position reached. Returns the position the loop reached. */
    method PlaybackThread(bufSize: int, write: seq<Byte> -> int) returns (reached: int)
      requires Valid() && view.Valid() && bufSize > 0
      requires forall c :: write(c) <= |c|
      modifies this, view
      ensures Valid() && view.Valid()
      ensures !old(isPlaying) ==> reached == old(position) && position == old(position) && !isPlaying
      ensures !old(isPlaying) ==> heard == old(heard) && view.lastHighlight == old(view.lastHighlight)
      ensures old(isPlaying) ==> old(position) <= reached <= fileLength
      ensures old(isPlaying) ==> |heard| == |old(heard)| + reached - old(position)
      ensures old(isPlaying) && (forall c :: write(c) == |c| || write(c) <= 0) ==>
        heard == old(heard) + audio[old(position)..reached]
      ensures old(isPlaying) && (forall c :: c != [] ==> write(c) == |c|) ==> reached == fileLength
      ensures old(isPlaying) && reached == fileLength ==> !isPlaying && position == 0
      ensures old(isPlaying) && reached == fileLength && view.words != [] ==>
        view.lastHighlight == HighlightIndex(view.words, 0)
      ensures old(isPlaying) && reached < fileLength ==> isPlaying && position == reached
      ensures audioPath == old(audioPath) && audio == old(audio) && fileLength == old(fileLength)
      ensures trackOpen == old(trackOpen) && threadStarted == old(threadStarted)
      ensures updaterActive == old(updaterActive) && view.words == old(view.words)
      ensures recording == old(recording) && timestamped == old(timestamped)
    {
      reached := position;
      if !isPlaying {
        return;
      }
      var played;
      reached, played := StreamFile(audio, position, bufSize, write);
      position := reached;
      heard := heard + played;
      if isPlaying && position >= fileLength {
        Rewind();
      }
    }

    /** What the playback thread posts at end of file: stop playing, go back
        to the start and highlight the word at 0 ms. */
    method Rewind()
      requires Valid() && view.Valid()
      modifies this, view
      ensures Valid() && view.Valid() && !isPlaying && position == 0
      ensures view.words != [] ==> view.lastHighlight == HighlightIndex(view.words, 0)
      ensures audioPath == old(audioPath) && audio == old(audio) && fileLength == old(fileLength)
      ensures trackOpen == old(trackOpen) && threadStarted == old(threadStarted)
      ensures updaterActive == old(updaterActive) && view.words == old(view.words)
      ensures heard == old(heard) && recording == old(recording) && timestamped == old(timestamped)
    {
      isPlaying := false;
      position := 0;
      view.UpdateHighlight(0);
    }

    /** pausePlayback: stop playing, release the audio track, join the
        thread and stop the UI updater; the position is kept. */
    method Pause()
      requires Valid()
      modifies this
      ensures Valid()
      ensures !isPlaying && !trackOpen && !threadStarted && !updaterActive
      ensures position == old(position) && audioPath == old(audioPath) && audio == old(audio)
      ensures fileLength == old(fileLength) && heard == old(heard) && recording == old(recording)
      ensures timestamped == old(timestamped)
    {
      isPlaying := false;
      updaterActive := false;
      trackOpen := false;
      threadStarted := false;
    }

    /** stopPlayback: stop playing, release the audio track, stop the UI
        updater, and forget the file: position 0, no path, length 0. The
        playback thread is not joined. */
    method Stop()
      requires Valid()
      modifies this
      ensures Valid()
      ensures !isPlaying && !trackOpen && !updaterActive && threadStarted == old(threadStarted)
      ensures position == 0 && audioPath.None? && fileLength == 0
      ensures heard == old(heard) && recording == old(recording) && timestamped == old(timestamped)
    {
      isPlaying := false;
      updaterActive := false;
      trackOpen := false;
      position := 0;
      audioPath := None;
      fileLength := 0;
      audio := [];
    }

    /** seekToMs: move to the even byte offset of `ms`, clamped to the file,
        and highlight the word at `ms`; playback that was running is paused
        around the move and resumed, so the playing flag is kept. */
    method Seek(ms: int)
      requires Valid() && view.Valid()
      modifies this, view
      ensures Valid() && view.Valid()
      ensures position == SeekBytes(ms, fileLength) && isPlaying == old(isPlaying)
      ensures old(isPlaying) ==> trackOpen && threadStarted && updaterActive
      ensures !old(isPlaying) ==> trackOpen == old(trackOpen) && threadStarted == old(threadStarted)
      ensures !old(isPlaying) ==> updaterActive == old(updaterActive)
      ensures view.words != [] ==> view.lastHighlight == HighlightIndex(view.words, ms)
      ensures audioPath == old(audioPath) && audio == old(audio) && fileLength == old(fileLength)
      ensures heard == old(heard) && view.words == old(view.words)
      ensures recording == old(recording) && timestamped == old(timestamped)
    {
      var bytePos := SeekBytes(ms, fileLength);
      var wasPlaying := isPlaying;
      if wasPlaying {
        Pause();
      }
      position := bytePos;
      view.UpdateHighlight(ms);
      if wasPlaying {
        Resume();
      }
    }

    /** One run of the playback UI updater: while playing, highlight the word
        at the time of the current position. */
    method Tick()
      requires Valid() && view.Valid()
      modifies view
      ensures Valid() && view.Valid()
      ensures isPlaying && view.words != [] ==> view.lastHighlight == HighlightIndex(view.words, BytesToMs(position))
      ensures !isPlaying ==> view.lastHighlight == old(view.lastHighlight)
      ensures view.words == old(view.words)
    {
      if isPlaying {
        var ms := BytesToMs(position);
        view.UpdateHighlight(ms);
      }
    }

    /** A click on word `i` of the karaoke text: seek to the word's start and
        play from there. */
    method ClickWord(i: int)
      requires Valid() && view.Valid() && 0 <= i < |view.words|
      modifies this, view
      ensures Valid() && view.Valid()
      ensures position == SeekBytes(old(view.words[i].startMs), fileLength)
      ensures audioPath.Some? ==> isPlaying && trackOpen && threadStarted && updaterActive
      ensures audioPath.None? ==> !isPlaying
      ensures audioPath.None? ==> trackOpen == old(trackOpen) && threadStarted == old(threadStarted)
      ensures audioPath.None? ==> updaterActive == old(updaterActive)
      ensures view.words == old(view.words)
      ensures view.lastHighlight == HighlightIndex(view.words, old(view.words[i].startMs))
      ensures audioPath == old(audioPath) && audio == old(audio) && fileLength == old(fileLength)
      ensures heard == old(heard) && recording == old(recording) && timestamped == old(timestamped)
    {
      Seek(view.words[i].startMs);
      if !isPlaying {
        Resume();
      }
    }
  }

  /** The seekbar's progress never passes its maximum: the time of any
      position within the file is between 0 and the file's duration. */
  lemma ProgressWithinDuration(position: int, fileLength: int)
    requires 0 <= position <= fileLength && fileLength / 16 < 0x8000_0000
    ensures 0 <= BytesToMs(position) <= BytesToMs(fileLength)
  {
  }
}
