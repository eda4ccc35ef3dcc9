/** Time and byte-offset arithmetic of the Java activity (MainActivity.java):
    "hh:mm:ss" labels, the byte <-> millisecond conversions of the 8 kHz,
    16-bit mono PCM file, and the seek target. Java's integer division
    truncates toward zero and its (int) cast wraps, so both are written out. */
module Timing {
  import opened Strings

  /** Sample rate of the Java capture and playback code. */
  const SAMPLE_RATE: int := 8000
  /** One 16-bit mono sample takes two bytes. */
  const BYTES_PER_SECOND: int := SAMPLE_RATE * 2

  /** Java's `/` for a positive divisor: the quotient truncated toward zero. */
  function JavaDiv(a: int, b: int): (q: int)
    requires b > 0
    ensures 0 <= a ==> 0 <= q && q * b <= a < q * b + b
    ensures a < 0 ==> q <= 0 && q * b - b < a <= q * b
  {
    EuclidBounds(if a >= 0 then a else -a, b);
    if a >= 0 then a / b else -((-a) / b)
  }

  /** Dafny's `/` on a non-negative dividend: the largest multiple of `b`
      not above `n`. */
  lemma EuclidBounds(n: int, b: int)
    requires 0 <= n && 0 < b
    ensures 0 <= n / b && (n / b) * b <= n < (n / b) * b + b
    ensures -(n / b) * b == (-(n / b)) * b
  {
    var q, r := n / b, n % b;
    assert n == q * b + r && 0 <= r < b;
  }

  /** Java's `%` for a positive divisor: the remainder takes the sign of `a`. */
  function JavaRem(a: int, b: int): (r: int)
    requires b > 0
    ensures a == JavaDiv(a, b) * b + r
    ensures 0 <= a ==> 0 <= r < b
    ensures a < 0 ==> -b < r <= 0
  {
    a - JavaDiv(a, b) * b
  }

  /** Java's (int) cast of a long: keep the low 32 bits, two's complement. */
  function Int32(x: int): (r: int)
    ensures -0x8000_0000 <= r < 0x8000_0000 && (x - r) % 0x1_0000_0000 == 0
    ensures -0x8000_0000 <= x < 0x8000_0000 ==> r == x
  {
    var m := x % 0x1_0000_0000;
    if m >= 0x8000_0000 then m - 0x1_0000_0000 else m
  }

  datatype Clock = Clock(hours: int, minutes: int, seconds: int)

  /** The three fields formatTimeMs prints: whole seconds split into hours,
      minutes and seconds with Java's truncating `/` and `%`. */
  function ClockOf(ms: int): (c: Clock)
    ensures c.hours * 3600 + c.minutes * 60 + c.seconds == JavaDiv(ms, 1000)
    ensures 0 <= ms ==> 0 <= c.hours && 0 <= c.minutes < 60 && 0 <= c.seconds < 60
    ensures ms < 0 ==> c.hours <= 0 && -60 < c.minutes <= 0 && -60 < c.seconds <= 0
  {
    var totalSec := JavaDiv(ms, 1000);
    ClockSplit(totalSec);
    Clock(JavaDiv(totalSec, 3600), JavaDiv(JavaRem(totalSec, 3600), 60), JavaRem(totalSec, 60))
  }

  /** Hours, minutes of the hour and seconds of the minute add back up to
      `s` and each keeps the sign of `s`. */
  lemma ClockSplit(s: int)
    ensures JavaDiv(s, 3600) * 3600 + JavaDiv(JavaRem(s, 3600), 60) * 60 + JavaRem(s, 60) == s
    ensures 0 <= s ==> 0 <= JavaDiv(s, 3600) && 0 <= JavaDiv(JavaRem(s, 3600), 60) < 60 && 0 <= JavaRem(s, 60) < 60
    ensures s < 0 ==> JavaDiv(s, 3600) <= 0 && -60 < JavaDiv(JavaRem(s, 3600), 60) <= 0 && -60 < JavaRem(s, 60) <= 0
  {
    var h, r := JavaDiv(s, 3600), JavaRem(s, 3600);
    var m, x := JavaDiv(r, 60), JavaRem(r, 60);
    assert s == h * 3600 + r;
    assert r == m * 60 + x;
    if 0 <= s {
      assert m * 60 <= r < 3600;
      LessFromProduct(m, 60, 60);
    } else {
      assert -3600 < r <= m * 60;
      LessFromProduct(-60, m, 60);
    }
    assert s == (h * 60 + m) * 60 + x;
    JavaRemUnique(s, h * 60 + m, x);
  }

  /** A truncating remainder is determined by its range and the sign of `a`. */
  lemma JavaRemUnique(a: int, q: int, r: int)
    requires a == q * 60 + r
    requires 0 <= a ==> 0 <= r < 60
    requires a < 0 ==> -60 < r <= 0
    ensures JavaRem(a, 60) == r
  {
    var q' := JavaDiv(a, 60);
    var r' := JavaRem(a, 60);
    assert (q - q') * 60 == r' - r;
    LessFromProduct(q - q', 1, 60);
    LessFromProduct(-1, q - q', 60);
  }

  /** Dividing both sides of a strict inequality by a positive factor. */
  lemma LessFromProduct(a: int, b: int, c: int)
    requires 0 < c && a * c < b * c
    ensures a < b
  {
    assert (b - a) * c > 0;
  }

  /** formatTimeMs: "%02d:%02d:%02d" of hours, minutes and seconds. */
  function FormatTimeMs(ms: int): (r: string)
    ensures 8 <= |r|
  {
    var c := ClockOf(ms);
    Pad2(c.hours) + ":" + Pad2(c.minutes) + ":" + Pad2(c.seconds)
  }

  /** Below 100 hours the label is exactly "hh:mm:ss" and reads back as the
      whole number of seconds in `ms`. */
  lemma FormatTimeMsReadsBack(ms: int)
    requires 0 <= ms < 360_000_000
    ensures var r := FormatTimeMs(ms);
            |r| == 8 && r[2] == ':' && r[5] == ':'
            && (forall i | i in {0, 1, 3, 4, 6, 7} :: IsDigit(r[i]))
            && DigitValue(r[3]) < 6 && DigitValue(r[6]) < 6
            && (DigitValue(r[0]) * 10 + DigitValue(r[1])) * 3600
               + (DigitValue(r[3]) * 10 + DigitValue(r[4])) * 60
               + DigitValue(r[6]) * 10 + DigitValue(r[7]) == ms / 1000
  {
    var c := ClockOf(ms);
    LessFromProduct(c.hours, 100, 3600);
    Pad2TwoDigits(c.hours);
    Pad2TwoDigits(c.minutes);
    Pad2TwoDigits(c.seconds);
    var r := FormatTimeMs(ms);
    assert r[0..2] == Pad2(c.hours) && r[3..5] == Pad2(c.minutes) && r[6..8] == Pad2(c.seconds);
  }

  /** bytesToMs and the playback duration: (int) (bytes * 1000L / 16000). */
  function BytesToMs(bytes: int): (ms: int)
    ensures -0x8000_0000 <= ms < 0x8000_0000
    ensures 0 <= bytes && bytes / 16 < 0x8000_0000 ==> ms == bytes / 16
  {
    var q := JavaDiv(bytes * 1000, BYTES_PER_SECOND);
    if bytes >= 0 then MillisOfBytes(bytes); Int32(q) else Int32(q)
  }

  /** For a non-negative count, bytes * 1000 / 16000 is bytes / 16. */
  lemma MillisOfBytes(bytes: int)
    requires 0 <= bytes
    ensures JavaDiv(bytes * 1000, BYTES_PER_SECOND) == bytes / 16
  {
    var q := JavaDiv(bytes * 1000, BYTES_PER_SECOND);
    var k := bytes / 16;
    assert 16 * k <= bytes < 16 * k + 16;
    assert 16000 * k <= bytes * 1000 < 16000 * k + 16000;
    assert q * 16000 <= bytes * 1000 < q * 16000 + 16000;
    LessFromProduct(q, k + 1, 16000);
    LessFromProduct(k, q + 1, 16000);
  }

  /** seekToMs's target: (long) ms * 8000 * 2 / 1000, the low bit cleared with
      `& ~1L` (on two's complement that subtracts the non-negative remainder
      modulo 2), then clamped below by 0 and above by the file length. */
  function SeekBytes(ms: int, fileLength: int): (b: int)
    ensures 0 <= fileLength ==> 0 <= b <= fileLength
    ensures 0 <= 16 * ms <= fileLength ==> b == 16 * ms
    ensures 16 * ms < 0 <= fileLength ==> b == 0
    ensures 0 <= fileLength < 16 * ms ==> b == fileLength
    ensures fileLength % 2 == 0 ==> b % 2 == 0
  {
    var raw := JavaDiv(ms * BYTES_PER_SECOND, 1000);
    SeekRawBytes(ms);
    var even := raw - raw % 2;
    var low := if even < 0 then 0 else even;
    if low > fileLength then fileLength else low
  }

  /** (long) ms * 8000 * 2 / 1000 is exactly 16 * ms, so always even. */
  lemma SeekRawBytes(ms: int)
    ensures JavaDiv(ms * BYTES_PER_SECOND, 1000) == 16 * ms
  {
    var raw := JavaDiv(ms * BYTES_PER_SECOND, 1000);
    assert ms * BYTES_PER_SECOND == (16 * ms) * 1000;
    if ms >= 0 {
      LessFromProduct(raw, 16 * ms + 1, 1000);
      LessFromProduct(16 * ms, raw + 1, 1000);
    } else {
      LessFromProduct(raw - 1, 16 * ms, 1000);
      LessFromProduct(16 * ms - 1, raw, 1000);
    }
  }

  /** Seeking to a time inside the file and converting the position back
      gives the same time. */
  lemma SeekThenBytesToMs(ms: int, fileLength: int)
    requires 0 <= ms < 0x8000_0000 && 16 * ms <= fileLength
    ensures BytesToMs(SeekBytes(ms, fileLength)) == ms
  {
  }
}
