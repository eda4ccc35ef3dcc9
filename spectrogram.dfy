/** The spectrogram view (SpectrogramView.java): samples are collected into
    windows of FFT_SIZE, each full window becomes one column of a ring of
    MAX_COLUMNS columns in an offscreen bitmap, and onDraw shows the ring
    oldest column first. A column is modelled by the window it was computed
    from; the FFT and the colour map are floating-point numerics outside the
    model. */
module Spectrogram {
  import opened Wrappers
  import opened Timing
  import opened Pcm

  const FFT_SIZE: int := 512
  const FREQ_BINS: int := FFT_SIZE / 2
  const MAX_COLUMNS: int := 200

  // ---------------------------------------------------------------------
  // Placing a column's bins into the pixel row.

  /** Bin k goes to row FREQ_BINS - 1 - k: low frequencies at the bottom. */
  function RowOfBin(k: int): int {
    FREQ_BINS - 1 - k
  }

  /** The bin-to-row placement is its own inverse, so a bijection on the
      rows of a column, with bin 0 at the bottom row. */
  lemma RowOfBinBijective()
    ensures forall k :: 0 <= k < FREQ_BINS ==> 0 <= RowOfBin(k) < FREQ_BINS && RowOfBin(RowOfBin(k)) == k
    ensures forall k, j :: 0 <= k < FREQ_BINS && 0 <= j < FREQ_BINS && RowOfBin(k) == RowOfBin(j) ==> k == j
    ensures RowOfBin(0) == FREQ_BINS - 1 && RowOfBin(FREQ_BINS - 1) == 0
  {
  }

  /** processWindow's colour loop: `colors[k]` is the colour of bin k (the
      FFT and the heat map are not modelled); each goes to its row. */
  method FillColumn(colors: seq<int>, pixelRow: array<int>)
    requires |colors| == FREQ_BINS && pixelRow.Length == FREQ_BINS
    modifies pixelRow
    ensures forall k :: 0 <= k < FREQ_BINS ==> pixelRow[RowOfBin(k)] == colors[k]
    ensures forall r :: 0 <= r < FREQ_BINS ==> pixelRow[r] == colors[RowOfBin(r)]
  {
    var k := 0;
    while k < FREQ_BINS
      invariant 0 <= k <= FREQ_BINS
      invariant forall j :: 0 <= j < k ==> pixelRow[RowOfBin(j)] == colors[j]
    {
      pixelRow[FREQ_BINS - 1 - k] := colors[k];
      k := k + 1;
    }
    forall r | 0 <= r < FREQ_BINS ensures pixelRow[r] == colors[RowOfBin(r)] {
      assert RowOfBin(RowOfBin(r)) == r;
    }
  }

  // ---------------------------------------------------------------------
  // The draw plan of onDraw.

  /** One drawBitmap call: bitmap columns [srcLeft, srcRight) stretched over
      view columns [dstLeft, dstRight), full height. */
  datatype Strip = Strip(srcLeft: int, srcRight: int, dstLeft: int, dstRight: int)

  /** What onDraw draws for a snapshot (`column`, `wrapped`) of the ring in a
      view of `viewW` x `viewH`: nothing for an empty view or an empty ring;
      the filled columns over the whole view before the ring wrapped; after
      it wrapped, the older part [column, MAX_COLUMNS) on the left and the
      newer part [0, column) on the right, split at leftW. */
  function DrawPlan(column: int, wrapped: bool, viewW: int, viewH: int): (plan: seq<Strip>)
    requires 0 <= column < MAX_COLUMNS && 0 <= viewW && 0 <= viewH
    ensures |plan| <= 2
    ensures plan == [] <==> viewW == 0 || viewH == 0 || (column == 0 && !wrapped)
  {
    if viewW == 0 || viewH == 0 then []
    else if column == 0 && !wrapped then []
    else if !wrapped then [Strip(0, column, 0, viewW)]
    else
      var rightPart := MAX_COLUMNS - column;
      var leftW := JavaDiv(rightPart * viewW, MAX_COLUMNS);
      (if rightPart > 0 then [Strip(column, MAX_COLUMNS, 0, leftW)] else [])
        + (if column > 0 then [Strip(0, column, leftW, viewW)] else [])
  }

  /** The integers a, a+1, ..., b-1. */
  function Range(a: int, b: int): (r: seq<int>)
    ensures |r| == if a <= b then b - a else 0
    ensures forall i :: 0 <= i < |r| ==> r[i] == a + i
  {
    seq(if a <= b then b - a else 0, i => a + i)
  }

  /** The bitmap columns a plan shows, left to right. */
  function Columns(plan: seq<Strip>): seq<int> {
    if plan == [] then [] else Columns(plan[..|plan| - 1]) + Range(plan[|plan| - 1].srcLeft, plan[|plan| - 1].srcRight)
  }

  /** The order in which onDraw shows the ring's columns: 0 .. column-1
      before the ring wraps, all MAX_COLUMNS columns from `column` (the
      oldest) round to column-1 (the newest) after. */
  function RingOrder(column: int, wrapped: bool): (r: seq<int>)
    requires 0 <= column < MAX_COLUMNS
    ensures |r| == if wrapped then MAX_COLUMNS else column
    ensures forall i :: 0 <= i < |r| ==> 0 <= r[i] < MAX_COLUMNS
  {
    if wrapped then seq(MAX_COLUMNS, i => (column + i) % MAX_COLUMNS) else Range(0, column)
  }

  /** The columns drawn, left to right, are the ring in that order whenever
      the view is not empty. */
  lemma PlanOrder(column: int, wrapped: bool, viewW: int, viewH: int)
    requires 0 <= column < MAX_COLUMNS && 0 < viewW && 0 < viewH
    ensures Columns(DrawPlan(column, wrapped, viewW, viewH)) == RingOrder(column, wrapped)
  {
    if !wrapped {
      if column > 0 {
        ColumnsOne(Strip(0, column, 0, viewW));
      }
    } else {
      PlanWrapped(column, viewW, viewH);
      Rotation(column);
    }
  }

  /** After the ring wraps, the plan shows [column, MAX_COLUMNS) and then
      [0, column). */
  lemma PlanWrapped(column: int, viewW: int, viewH: int)
    requires 0 <= column < MAX_COLUMNS && 0 < viewW && 0 < viewH
    ensures Columns(DrawPlan(column, true, viewW, viewH)) == Range(column, MAX_COLUMNS) + Range(0, column)
  {
    var leftW := JavaDiv((MAX_COLUMNS - column) * viewW, MAX_COLUMNS);
    var s1 := Strip(column, MAX_COLUMNS, 0, leftW);
    if column > 0 {
      ColumnsTwo(s1, Strip(0, column, leftW, viewW));
    } else {
      ColumnsOne(s1);
      assert Range(0, column) == [];
    }
  }

  /** The older part followed by the newer part is the ring read from
      `column` round. */
  lemma Rotation(column: int)
    requires 0 <= column < MAX_COLUMNS
    ensures Range(column, MAX_COLUMNS) + Range(0, column) == seq(MAX_COLUMNS, i => (column + i) % MAX_COLUMNS)
  {
    var cols := Range(column, MAX_COLUMNS) + Range(0, column);
    forall i | 0 <= i < MAX_COLUMNS ensures cols[i] == (column + i) % MAX_COLUMNS {
      if i < MAX_COLUMNS - column {
        assert cols[i] == column + i;
        ModOf(column + i, 0, column + i);
      } else {
        assert cols[i] == column + i - MAX_COLUMNS;
        ModOf(column + i, 1, column + i - MAX_COLUMNS);
      }
    }
  }

  lemma ColumnsOne(s: Strip)
    ensures Columns([s]) == Range(s.srcLeft, s.srcRight)
  {
    assert [s][..0] == [];
  }

  lemma ColumnsTwo(s: Strip, t: Strip)
    ensures Columns([s, t]) == Range(s.srcLeft, s.srcRight) + Range(t.srcLeft, t.srcRight)
  {
    assert [s, t][..1] == [s];
    ColumnsOne(s);
  }

  /** The strips of a plan lie side by side without gap or overlap and
      cover the whole width of the view; after the ring wraps the split is
      at leftW = (MAX_COLUMNS - column) * viewW / MAX_COLUMNS. */
  lemma PlanTiles(column: int, wrapped: bool, viewW: int, viewH: int)
    requires 0 <= column < MAX_COLUMNS && 0 < viewW && 0 < viewH
    ensures var plan := DrawPlan(column, wrapped, viewW, viewH);
      && (plan != [] ==> plan[0].dstLeft == 0 && plan[|plan| - 1].dstRight == viewW)
      && (forall i :: 0 <= i < |plan| ==> 0 <= plan[i].dstLeft <= plan[i].dstRight <= viewW)
      && (forall i :: 0 <= i < |plan| - 1 ==> plan[i].dstRight == plan[i + 1].dstLeft)
      && (wrapped ==> plan[0].dstRight == (MAX_COLUMNS - column) * viewW / MAX_COLUMNS)
  {
    if wrapped {
      var rightPart := MAX_COLUMNS - column;
      assert 0 <= rightPart * viewW <= MAX_COLUMNS * viewW;
      var leftW := JavaDiv(rightPart * viewW, MAX_COLUMNS);
      assert leftW == rightPart * viewW / MAX_COLUMNS;
      assert 0 <= leftW <= viewW;
    }
  }

  // ---------------------------------------------------------------------
  // The view.

  /** The view's state: the sample buffer and its fill count, the offscreen
      bitmap's columns, the next column to write and whether the ring has
      wrapped, and the dB thresholds of the colour map. `fed` holds every
      sample added since the view was created or cleared and `windows` every
      window processed since then. */
  class SpectrogramView {
    const sampleBuffer: array<Sample>
    const bitmap: array<seq<Sample>>
    var sampleCount: int
    var currentColumn: int
    var wrapped: bool
    var dbFloor: real
    var dbCeil: real
    ghost var fed: seq<Sample>
    ghost var windows: seq<seq<Sample>>

    /** The ring: the column to write next follows the number of windows,
        `wrapped` says whether MAX_COLUMNS of them were written, each of the
        last MAX_COLUMNS windows sits in its column, and columns never
        written are blank. */
    ghost predicate RingValid()
      reads this, bitmap
    {
      bitmap.Length == MAX_COLUMNS
      && currentColumn == |windows| % MAX_COLUMNS
      && wrapped == (|windows| >= MAX_COLUMNS)
      && (forall k :: 0 <= k < |windows| && |windows| - MAX_COLUMNS <= k ==> bitmap[k % MAX_COLUMNS] == windows[k])
      && (forall c :: |windows| <= c < MAX_COLUMNS ==> bitmap[c] == [])
    }

    /** The buffer: the samples fed so far are the processed windows, one
        after another, followed by the sampleCount samples in the buffer. */
    ghost predicate BufferValid()
      reads this, sampleBuffer
    {
      sampleBuffer.Length == FFT_SIZE
      && 0 <= sampleCount < FFT_SIZE
      && |fed| == FFT_SIZE * |windows| + sampleCount
      && (forall i :: 0 <= i < |windows| ==> windows[i] == fed[FFT_SIZE * i..FFT_SIZE * i + FFT_SIZE])
      && sampleBuffer[..sampleCount] == fed[FFT_SIZE * |windows|..]
    }

    ghost predicate Valid()
      reads this, sampleBuffer, bitmap
    {
      RingValid() && BufferValid()
    }

    constructor ()
      ensures Valid() && fresh(sampleBuffer) && fresh(bitmap)
      ensures sampleCount == 0 && currentColumn == 0 && !wrapped && fed == [] && windows == []
      ensures dbFloor == -10.0 && dbCeil == 80.0
    {
      sampleBuffer := new Sample[FFT_SIZE](_ => 0);
      bitmap := new seq<Sample>[MAX_COLUMNS](_ => []);
      sampleCount, currentColumn, wrapped := 0, 0, false;
      dbFloor, dbCeil := -10.0, 80.0;
      fed, windows := [], [];
    }

    /** processWindow: the full buffer becomes the column at currentColumn,
        which moves on by one, wrapping to 0 (and setting `wrapped`) at
        MAX_COLUMNS. */
    method ProcessWindow()
      requires RingValid() && sampleBuffer.Length == FFT_SIZE
      modifies this, bitmap
      ensures RingValid()
      ensures windows == old(windows) + [sampleBuffer[..]]
      ensures bitmap[old(currentColumn)] == sampleBuffer[..]
      ensures currentColumn == (old(currentColumn) + 1) % MAX_COLUMNS
      ensures wrapped == (old(wrapped) || old(currentColumn) + 1 == MAX_COLUMNS)
      ensures sampleCount == old(sampleCount) && fed == old(fed)
      ensures dbFloor == old(dbFloor) && dbCeil == old(dbCeil)
    {
      ghost var n := |windows|;
      var column := sampleBuffer[..];
      bitmap[currentColumn] := column;
      windows := windows + [column];
      currentColumn := currentColumn + 1;
      if currentColumn >= MAX_COLUMNS {
        currentColumn := 0;
        wrapped := true;
      }
      NextColumn(n);
      forall k | 0 <= k < n && n + 1 - MAX_COLUMNS <= k
        ensures bitmap[k % MAX_COLUMNS] == windows[k]
      {
        ColumnsApart(k, n);
      }
    }

    /** One pass of addSamples' loop: store the sample and, when the buffer
        is full, process it as a window and start a new one. */
    method Push(s: Sample)
      requires Valid()
      modifies this, sampleBuffer, bitmap
      ensures Valid() && fed == old(fed) + [s]
      ensures dbFloor == old(dbFloor) && dbCeil == old(dbCeil)
    {
      ghost var n := |windows|;
      sampleBuffer[sampleCount] := s;
      sampleCount := sampleCount + 1;
      fed := fed + [s];
      ChunksExtend(old(fed), windows, s);
      if sampleCount == FFT_SIZE {
        assert sampleBuffer[..] == sampleBuffer[..sampleCount];
        ProcessWindow();
        sampleCount := 0;
        assert windows[n] == fed[FFT_SIZE * n..FFT_SIZE * n + FFT_SIZE];
      } else {
        assert sampleBuffer[..sampleCount] == old(sampleBuffer[..sampleCount]) + [s];
      }
    }

    /** addSamples: nothing for a null array or a length of at most 0;
        otherwise the first `length` samples are fed one by one, so from a
        count c, (c + length) / FFT_SIZE windows are processed and the count
        becomes (c + length) % FFT_SIZE. */
    method AddSamples(samples: Option<seq<Sample>>, length: int)
      requires Valid() && (samples.Some? ==> length <= |samples.value|)
      modifies this, sampleBuffer, bitmap
      ensures Valid()
      ensures samples.None? || length <= 0 ==>
        fed == old(fed) && windows == old(windows) && sampleCount == old(sampleCount)
        && currentColumn == old(currentColumn) && wrapped == old(wrapped)
      ensures samples.Some? && length > 0 ==> fed == old(fed) + samples.value[..length]
      ensures samples.Some? && length > 0 ==>
        |windows| == old(|windows|) + (old(sampleCount) + length) / FFT_SIZE
        && sampleCount == (old(sampleCount) + length) % FFT_SIZE
      ensures dbFloor == old(dbFloor) && dbCeil == old(dbCeil)
    {
      if samples.None? || length <= 0 {
        return;
      }
      var i := 0;
      while i < length
        invariant 0 <= i <= length
        invariant Valid() && fed == old(fed) + samples.value[..i]
        invariant dbFloor == old(dbFloor) && dbCeil == old(dbCeil)
      {
        Push(samples.value[i]);
        assert samples.value[..i + 1] == samples.value[..i] + [samples.value[i]];
        i := i + 1;
      }
      DivModOf(|windows| - old(|windows|), sampleCount, old(sampleCount) + length);
    }

    /** clear: empty the buffer and the ring and blank the bitmap. */
    method Clear()
      requires Valid()
      modifies this, bitmap
      ensures Valid()
      ensures sampleCount == 0 && currentColumn == 0 && !wrapped && fed == [] && windows == []
      ensures forall c :: 0 <= c < MAX_COLUMNS ==> bitmap[c] == []
      ensures dbFloor == old(dbFloor) && dbCeil == old(dbCeil)
    {
      sampleCount, currentColumn, wrapped := 0, 0, false;
      fed, windows := [], [];
      forall c | 0 <= c < bitmap.Length {
        bitmap[c] := [];
      }
      assert RingValid();
      assert sampleBuffer[..sampleCount] == [] == fed[FFT_SIZE * |windows|..];
    }

    /** setDbFloor: only the lower threshold changes. */
    method SetDbFloor(floor: real)
      requires Valid()
      modifies this
      ensures Valid() && dbFloor == floor && dbCeil == old(dbCeil)
      ensures sampleCount == old(sampleCount) && currentColumn == old(currentColumn) && wrapped == old(wrapped)
      ensures fed == old(fed) && windows == old(windows)
    {
      dbFloor := floor;
    }

    /** setDbCeil: only the upper threshold changes. */
    method SetDbCeil(ceil: real)
      requires Valid()
      modifies this
      ensures Valid() && dbCeil == ceil && dbFloor == old(dbFloor)
      ensures sampleCount == old(sampleCount) && currentColumn == old(currentColumn) && wrapped == old(wrapped)
      ensures fed == old(fed) && windows == old(windows)
    {
      dbCeil := ceil;
    }

    /** The ring, read in RingOrder, holds the latest windows in the order
        they were processed: all of them before it wraps, the last
        MAX_COLUMNS after. */
    lemma RingHoldsLatest()
      requires RingValid()
      ensures var order := RingOrder(currentColumn, wrapped);
        && |order| == (if |windows| < MAX_COLUMNS then |windows| else MAX_COLUMNS)
        && forall i :: 0 <= i < |order| ==> bitmap[order[i]] == windows[|windows| - |order| + i]
    {
      var n := |windows|;
      var order := RingOrder(currentColumn, wrapped);
      if wrapped {
        forall i | 0 <= i < MAX_COLUMNS
          ensures bitmap[order[i]] == windows[n - MAX_COLUMNS + i]
        {
          RingIndex(n, i);
        }
      } else {
        forall i | 0 <= i < n ensures bitmap[order[i]] == windows[i] {
          assert i % MAX_COLUMNS == i;
        }
      }
    }
  }

  /** The column after the one for n windows is the one for n + 1. */
  lemma NextColumn(n: nat)
    ensures (n % MAX_COLUMNS + 1 == MAX_COLUMNS) == ((n + 1) % MAX_COLUMNS == 0)
    ensures n % MAX_COLUMNS + 1 < MAX_COLUMNS ==> (n + 1) % MAX_COLUMNS == n % MAX_COLUMNS + 1
    ensures (n + 1 >= MAX_COLUMNS) == (n >= MAX_COLUMNS || n % MAX_COLUMNS + 1 == MAX_COLUMNS)
  {
  }

  /** Windows fewer than MAX_COLUMNS apart sit in different columns. */
  lemma ColumnsApart(k: int, n: int)
    requires 0 <= k < n < k + MAX_COLUMNS
    ensures k % MAX_COLUMNS != n % MAX_COLUMNS
  {
  }

  /** The i-th oldest of the last MAX_COLUMNS windows sits in column
      (n % MAX_COLUMNS + i) % MAX_COLUMNS. */
  lemma RingIndex(n: int, i: int)
    requires MAX_COLUMNS <= n && 0 <= i < MAX_COLUMNS
    ensures (n % MAX_COLUMNS + i) % MAX_COLUMNS == (n - MAX_COLUMNS + i) % MAX_COLUMNS
  {
    var q, c := n / MAX_COLUMNS, n % MAX_COLUMNS;
    assert n == MAX_COLUMNS * q + c && 0 <= c < MAX_COLUMNS;
    if c + i < MAX_COLUMNS {
      ModOf(n - MAX_COLUMNS + i, q - 1, c + i);
      ModOf(c + i, 0, c + i);
    } else {
      ModOf(n - MAX_COLUMNS + i, q, c + i - MAX_COLUMNS);
      ModOf(c + i, 1, c + i - MAX_COLUMNS);
    }
  }

  /** The remainder by MAX_COLUMNS is the unique one in range. */
  lemma ModOf(x: int, q: int, r: int)
    requires x == MAX_COLUMNS * q + r && 0 <= r < MAX_COLUMNS
    ensures x % MAX_COLUMNS == r
  {
  }

  /** Windows cut from the front of the fed samples stay put when one more
      sample is fed. */
  lemma ChunksExtend(fed: seq<Sample>, windows: seq<seq<Sample>>, s: Sample)
    requires FFT_SIZE * |windows| <= |fed|
    requires forall i :: 0 <= i < |windows| ==> windows[i] == fed[FFT_SIZE * i..FFT_SIZE * i + FFT_SIZE]
    ensures forall i :: 0 <= i < |windows| ==> windows[i] == (fed + [s])[FFT_SIZE * i..FFT_SIZE * i + FFT_SIZE]
  {
    forall i | 0 <= i < |windows|
      ensures windows[i] == (fed + [s])[FFT_SIZE * i..FFT_SIZE * i + FFT_SIZE]
    {
      PrefixSlice(fed, [s], FFT_SIZE * i, FFT_SIZE * i + FFT_SIZE);
    }
  }

  /** A slice inside the first part of a concatenation is a slice of it. */
  lemma PrefixSlice<T>(a: seq<T>, b: seq<T>, i: int, j: int)
    requires 0 <= i <= j <= |a|
    ensures (a + b)[i..j] == a[i..j]
  {
  }

  /** Division by FFT_SIZE is the unique quotient with a remainder in range. */
  lemma DivModOf(q: int, r: int, x: int)
    requires 0 <= r < FFT_SIZE && FFT_SIZE * q + r == x
    ensures q == x / FFT_SIZE && r == x % FFT_SIZE
  {
  }
}
