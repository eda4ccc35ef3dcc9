/** The raw audio file of a recording: 16-bit mono samples stored little-endian
    (MainActivity.java's capture thread writes them, its playback thread reads
    them back), and the capture step that writes one AudioRecord read to the
    file and hands a copy of it to the recognizer. */
module Pcm {

  /** A byte of the audio file, as an unsigned value. */
  type Byte = b: int | 0 <= b < 0x100

  /** A Java `short`. */
  type Sample = s: int | -0x8000 <= s < 0x8000

  /** The 16 bits of a sample read as an unsigned number (two's complement). */
  function Bits(s: Sample): (u: int)
    ensures 0 <= u < 0x1_0000 && (u - s) % 0x1_0000 == 0
  {
    if s < 0 then s + 0x1_0000 else s
  }

  /** One sample put through a little-endian ShortBuffer: low byte first. */
  function EncodeSample(s: Sample): (r: seq<Byte>)
    ensures |r| == 2 && r[0] as int + 0x100 * r[1] as int == Bits(s)
  {
    var u := Bits(s);
    [u % 0x100, u / 0x100]
  }

  /** One sample read from a little-endian ShortBuffer. */
  function DecodeSample(lo: Byte, hi: Byte): (s: Sample)
    ensures Bits(s) == lo as int + 0x100 * hi as int
  {
    var u := lo as int + 0x100 * hi as int;
    if u >= 0x8000 then u - 0x1_0000 else u
  }

  lemma SampleRoundTrip(s: Sample)
    ensures DecodeSample(EncodeSample(s)[0], EncodeSample(s)[1]) == s
  {
  }

  lemma BytesRoundTrip(lo: Byte, hi: Byte)
    ensures EncodeSample(DecodeSample(lo, hi)) == [lo, hi]
  {
  }

  /** The bytes a run of samples occupies in the file: sample i at bytes 2i, 2i+1. */
  function EncodeLE(samples: seq<Sample>): (r: seq<Byte>)
    ensures |r| == 2 * |samples|
  {
    if samples == [] then []
    else EncodeLE(samples[..|samples| - 1]) + EncodeSample(samples[|samples| - 1])
  }

  /** The samples a little-endian ShortBuffer yields over `bytes`: |bytes| / 2 of
      them, a trailing odd byte ignored. */
  function DecodeLE(bytes: seq<Byte>): (r: seq<Sample>)
    ensures |r| == |bytes| / 2
    ensures forall i :: 0 <= i < |r| ==> r[i] == DecodeSample(bytes[2 * i], bytes[2 * i + 1])
  {
    if |bytes| < 2 then [] else [DecodeSample(bytes[0], bytes[1])] + DecodeLE(bytes[2..])
  }

  /** Decoding two pieces separately is decoding them together when the first
      piece has an even length. */
  lemma DecodeAppend(a: seq<Byte>, b: seq<Byte>)
    requires |a| % 2 == 0
    ensures DecodeLE(a + b) == DecodeLE(a) + DecodeLE(b)
  {
    var ab := a + b;
    var h, k := |a| / 2, |b| / 2;
    assert |a| == 2 * h && 2 * k <= |b| < 2 * k + 2;
    assert |ab| / 2 == h + k;
    var r := DecodeLE(a) + DecodeLE(b);
    forall i | 0 <= i < h + k ensures DecodeLE(ab)[i] == r[i] {
      if i < h {
        assert ab[2 * i] == a[2 * i] && ab[2 * i + 1] == a[2 * i + 1];
      } else {
        var j := i - h;
        assert 2 * i == |a| + 2 * j;
        assert ab[2 * i] == b[2 * j] && ab[2 * i + 1] == b[2 * j + 1];
      }
    }
  }

  /** Encoding distributes over concatenation. */
  lemma {:induction false} EncodeAppend(a: seq<Sample>, b: seq<Sample>)
    ensures EncodeLE(a + b) == EncodeLE(a) + EncodeLE(b)
    decreases |b|
  {
    if b == [] {
      assert a + b == a;
    } else {
      var ab := a + b;
      assert ab[..|ab| - 1] == a + b[..|b| - 1];
      EncodeAppend(a, b[..|b| - 1]);
    }
  }

  /** Decoding what was encoded gives back the samples. */
  lemma {:induction false} DecodeEncode(samples: seq<Sample>)
    ensures DecodeLE(EncodeLE(samples)) == samples
    decreases |samples|
  {
    if samples != [] {
      var init, last := samples[..|samples| - 1], samples[|samples| - 1];
      assert init + [last] == samples;
      DecodeEncode(init);
      var pair := EncodeSample(last);
      DecodeAppend(EncodeLE(init), pair);
      assert DecodeLE(pair) == [DecodeSample(pair[0], pair[1])] + DecodeLE(pair[2..]);
      SampleRoundTrip(last);
    }
  }

  /** Encoding what was decoded gives back an even-length byte string. */
  lemma {:induction false} EncodeDecode(bytes: seq<Byte>)
    requires |bytes| % 2 == 0
    ensures EncodeLE(DecodeLE(bytes)) == bytes
    decreases |bytes|
  {
    if bytes != [] {
      var rest := bytes[2..];
      assert bytes == [bytes[0], bytes[1]] + rest;
      EncodeDecode(rest);
      var s0 := DecodeSample(bytes[0], bytes[1]);
      assert DecodeLE(bytes) == [s0] + DecodeLE(rest);
      EncodeAppend([s0], DecodeLE(rest));
      assert [s0][..0] == [];
      assert EncodeLE([s0]) == EncodeSample(s0);
      BytesRoundTrip(bytes[0], bytes[1]);
    }
  }

  /** All frames of a recording, one after another. */
  function Flatten(frames: seq<seq<Sample>>): (r: seq<Sample>)
  {
    if frames == [] then [] else Flatten(frames[..|frames| - 1]) + frames[|frames| - 1]
  }

  /** AudioRecord.read's error results the capture thread can see. */
  const ERROR: int := -1
  const ERROR_BAD_VALUE: int := -2
  const ERROR_INVALID_OPERATION: int := -3
  const ERROR_DEAD_OBJECT: int := -6

  /** What one pass of the capture loop does with a read result. */
  datatype Effect =
    | Skip
      /** `bytes` go to the audio file and `frame` to the recognizer's queue. */
    | Write(bytes: seq<Byte>, frame: seq<Sample>)
      /** An unchecked exception: a negative length reaches ShortBuffer.put or
          `new short[read]`, and the capture thread ends. */
    | Crash

  /** The capture step as written: only ERROR_INVALID_OPERATION is filtered
      out, so any other negative result is used as a length. */
  function CaptureEffectAsWritten(read: int, buffer: seq<Sample>, fileOpen: bool): (e: Effect)
    requires read <= |buffer|
    ensures e == Crash <==> read < 0 && read != ERROR_INVALID_OPERATION
  {
    if read == ERROR_INVALID_OPERATION then Skip
    else if read < 0 then Crash
    else Write(if fileOpen then EncodeLE(buffer[..read]) else [], buffer[..read])
  }

  /** A dead audio device (ERROR_DEAD_OBJECT) ends the capture thread. */
  lemma DeadObjectCrashesCapture(buffer: seq<Sample>, fileOpen: bool)
    ensures CaptureEffectAsWritten(ERROR_DEAD_OBJECT, buffer, fileOpen) == Crash
    ensures CaptureEffectAsWritten(ERROR, buffer, fileOpen) == Crash
  {
  }

  /** The capture step with every negative result skipped, as the guard intends. */
  function CaptureEffect(read: int, buffer: seq<Sample>, fileOpen: bool): (e: Effect)
    requires read <= |buffer|
    ensures e != Crash
    ensures e == Skip <==> read < 0
    ensures e.Write? ==> e.frame == buffer[..read] && |e.frame| == read
    ensures e.Write? ==> e.bytes == if fileOpen then EncodeLE(e.frame) else []
    ensures e.Write? && fileOpen ==> |e.bytes| == 2 * read && DecodeLE(e.bytes) == e.frame
  {
    if read < 0 then Skip
    else
      var frame := buffer[..read];
      DecodeEncode(frame);
      Write(if fileOpen then EncodeLE(frame) else [], frame)
  }

  /** Where the written code does not crash, the corrected step does the same. */
  lemma CaptureEffectAgrees(read: int, buffer: seq<Sample>, fileOpen: bool)
    requires read <= |buffer|
    requires read >= 0 || read == ERROR_INVALID_OPERATION
    ensures CaptureEffect(read, buffer, fileOpen) == CaptureEffectAsWritten(read, buffer, fileOpen)
  {
  }

  /** One recording session of the capture thread: what it has written to the
      audio file and every frame it has queued for the recognizer (in the order
      queued; the recognizer thread's consumption is not part of this model). */
  class CaptureSession {
    /** Whether the FileOutputStream opened (pcmOutputStream != null). */
    const fileOpen: bool
    var pcm: seq<Byte>
    var queued: seq<seq<Sample>>

    ghost predicate Valid()
      reads this
    {
      pcm == if fileOpen then EncodeLE(Flatten(queued)) else []
    }

    constructor (fileOpen: bool)
      ensures Valid() && this.fileOpen == fileOpen && pcm == [] && queued == []
    {
      this.fileOpen := fileOpen;
      pcm := [];
      queued := [];
    }

    /** One pass of the capture loop with the read result `read` in `buffer`. */
    method Capture(read: int, buffer: seq<Sample>)
      requires Valid() && read <= |buffer|
      modifies this
      ensures Valid()
      ensures read < 0 ==> pcm == old(pcm) && queued == old(queued)
      ensures read >= 0 ==> queued == old(queued) + [buffer[..read]]
      ensures read >= 0 && fileOpen ==> pcm == old(pcm) + EncodeLE(buffer[..read])
    {
      var e := CaptureEffect(read, buffer, fileOpen);
      if e.Write? {
        EncodeAppend(Flatten(queued), e.frame);
        pcm := pcm + e.bytes;
        queued := queued + [e.frame];
      }
    }

    /** Playing the file back yields exactly the samples the recognizer was given. */
    lemma PlaybackHearsQueued()
      requires Valid() && fileOpen
      ensures DecodeLE(pcm) == Flatten(queued)
    {
      DecodeEncode(Flatten(queued));
    }
  }
}
