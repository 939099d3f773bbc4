/** Axes and integration of measured spectra (peakApi.cpp), with real numbers for floats. */
module PeakSpectrum {
  import opened Wrappers

  datatype Axis = Axis(count: int, offset: real, delta: real, center: real)

  function AxisPoint(axis: Axis, i: nat): real {
    axis.offset + axis.delta * i as real
  }

  /** The points of an axis: equally spaced from its offset, except that a single point is the
      centre. */
  function AxisPoints(axis: Axis): (points: seq<real>)
    requires axis.count >= 0
    ensures |points| == axis.count
  {
    if axis.count == 1 then [axis.center]
    else seq(axis.count, i requires 0 <= i < axis.count => AxisPoint(axis, i))
  }

  /** A single point is the centre; more of them, or none, go up from the offset in equal steps. */
  lemma AxisPointsAre(axis: Axis)
    requires axis.count >= 0
    ensures |AxisPoints(axis)| == axis.count
    ensures axis.count == 1 ==> AxisPoints(axis)[0] == axis.center
    ensures axis.count > 1 ==> AxisPoints(axis)[0] == axis.offset
    ensures axis.count > 1 ==> forall k :: 0 < k < axis.count ==> Step(AxisPoints(axis), k) == axis.delta
  {
  }

  /** From one point to the next. */
  function Step(points: seq<real>, k: int): real
    requires 0 < k < |points|
  {
    points[k] - points[k - 1]
  }

  /** `createAxis`. A negative count makes `resize` throw. */
  method CreateAxis(axis: Axis) returns (points: Option<seq<real>>)
    ensures points == if axis.count < 0 then None else Some(AxisPoints(axis))
  {
    hide AxisPoint;
    if axis.count < 0 {
      return None;
    }
    var axisData := new real[axis.count](_ => 0.0);
    if axis.count == 1 {
      axisData[0] := axis.center;
      assert axisData[..] == [axis.center];
    } else {
      var i: nat := 0;
      while i < axisData.Length
        invariant i <= axisData.Length
        invariant forall k :: 0 <= k < i ==> axisData[k] == AxisPoint(axis, k)
      {
        axisData[i] := AxisPoint(axis, i);
        i := i + 1;
      }
      assert axisData[..] == AxisPoints(axis);
    }
    return Some(axisData[..]);
  }

  // ----- Sums over an image

  /** Where row `j` starts in an image of width `w`. */
  function RowStart(w: nat, j: nat): nat {
    if j == 0 then 0 else RowStart(w, j - 1) + w
  }

  lemma {:induction false} RowStartIsProduct(w: nat, j: nat)
    ensures RowStart(w, j) == j * w
    decreases j
  {
    if j > 0 {
      RowStartIsProduct(w, j - 1);
    }
  }

  lemma {:induction false} RowStartInside(w: nat, j: nat, h: nat)
    requires j < h
    ensures RowStart(w, j) + w <= RowStart(w, h)
    decreases h
  {
    if j < h - 1 {
      RowStartInside(w, j, h - 1);
    }
  }

  /** An image of `h` rows of `w` pixels each. */
  predicate IsImage(image: seq<real>, w: nat, h: nat) {
    |image| == RowStart(w, h)
  }

  function Pixel(image: seq<real>, w: nat, h: nat, j: nat, i: nat): real
    requires IsImage(image, w, h) && j < h && i < w
  {
    RowStartInside(w, j, h);
    image[RowStart(w, j) + i]
  }

  /** The sum of the first `rows` pixels of column `i`. */
  function ColumnSum(image: seq<real>, w: nat, h: nat, rows: nat, i: nat): real
    requires IsImage(image, w, h) && rows <= h && i < w
  {
    if rows == 0 then 0.0 else ColumnSum(image, w, h, rows - 1, i) + Pixel(image, w, h, rows - 1, i)
  }

  /** The sum of the first `n` pixels of row `j`. */
  function RowSum(image: seq<real>, w: nat, h: nat, j: nat, n: nat): real
    requires IsImage(image, w, h) && j < h && n <= w
  {
    if n == 0 then 0.0 else RowSum(image, w, h, j, n - 1) + Pixel(image, w, h, j, n - 1)
  }

  /** The sum of the first `rows` rows. */
  function RowTotal(image: seq<real>, w: nat, h: nat, rows: nat): real
    requires IsImage(image, w, h) && rows <= h
  {
    if rows == 0 then 0.0 else RowTotal(image, w, h, rows - 1) + RowSum(image, w, h, rows - 1, w)
  }

  /** The sum of the first `n` columns, cut off after `rows` rows. */
  function ColumnTotal(image: seq<real>, w: nat, h: nat, rows: nat, n: nat): real
    requires IsImage(image, w, h) && rows <= h && n <= w
  {
    if n == 0 then 0.0 else ColumnTotal(image, w, h, rows, n - 1) + ColumnSum(image, w, h, rows, n - 1)
  }

  function Sum(s: seq<real>): real {
    if s == [] then 0.0 else Sum(s[..|s| - 1]) + s[|s| - 1]
  }

  lemma {:induction false} ColumnTotalAddsRow(image: seq<real>, w: nat, h: nat, rows: nat, n: nat)
    requires IsImage(image, w, h) && rows < h && n <= w
    ensures ColumnTotal(image, w, h, rows + 1, n) == ColumnTotal(image, w, h, rows, n) + RowSum(image, w, h, rows, n)
    decreases n
  {
    if n > 0 {
      ColumnTotalAddsRow(image, w, h, rows, n - 1);
    }
  }

  lemma {:induction false} NoRowsNoTotal(image: seq<real>, w: nat, h: nat, n: nat)
    requires IsImage(image, w, h) && n <= w
    ensures ColumnTotal(image, w, h, 0, n) == 0.0
    decreases n
  {
    if n > 0 {
      NoRowsNoTotal(image, w, h, n - 1);
    }
  }

  /** Adding up columns and adding up rows gives the same total. */
  lemma {:induction false} ExchangeSums(image: seq<real>, w: nat, h: nat, rows: nat)
    requires IsImage(image, w, h) && rows <= h
    ensures ColumnTotal(image, w, h, rows, w) == RowTotal(image, w, h, rows)
    decreases rows
  {
    if rows == 0 {
      NoRowsNoTotal(image, w, h, w);
    } else {
      ExchangeSums(image, w, h, rows - 1);
      ColumnTotalAddsRow(image, w, h, rows - 1, w);
    }
  }

  lemma SumAppend(s: seq<real>, n: nat)
    requires n < |s|
    ensures Sum(s[..n + 1]) == Sum(s[..n]) + s[n]
  {
    assert s[..n + 1][..n] == s[..n];
  }

  lemma {:induction false} RowIsSlice(image: seq<real>, w: nat, h: nat, j: nat, n: nat)
    requires IsImage(image, w, h) && j < h && n <= w
    ensures RowStart(w, j) + n <= |image|
    ensures Sum(image[..RowStart(w, j) + n]) == Sum(image[..RowStart(w, j)]) + RowSum(image, w, h, j, n)
    decreases n
  {
    RowStartInside(w, j, h);
    if n > 0 {
      RowIsSlice(image, w, h, j, n - 1);
      SumAppend(image, RowStart(w, j) + n - 1);
    }
  }

  /** The row-by-row total is the sum of all pixels. */
  lemma {:induction false} RowTotalIsSum(image: seq<real>, w: nat, h: nat, rows: nat)
    requires IsImage(image, w, h) && rows <= h
    ensures RowStart(w, rows) <= |image| && RowTotal(image, w, h, rows) == Sum(image[..RowStart(w, rows)])
    decreases rows
  {
    if rows > 0 {
      RowTotalIsSum(image, w, h, rows - 1);
      RowIsSlice(image, w, h, rows - 1, w);
    }
  }

  /** The frame `integrate` looks at: the last one of a three-dimensional data set. */
  function LastFrame(rank: nat, frames: nat): nat
    requires rank == 3 ==> frames > 0
  {
    if rank == 3 then frames - 1 else 0
  }

  /** The pixels `integrate` looks at. */
  function FrameOf(data: seq<real>, rank: nat, dims: seq<nat>): (image: seq<real>)
    requires HasFrame(|data|, rank, dims)
    ensures IsImage(image, dims[0], dims[1])
  {
    RowStartIsProduct(dims[0], dims[1]);
    var size := dims[0] * dims[1];
    var start := size * LastFrame(rank, dims[2]);
    data[start..start + size]
  }

  /** What the size of the data must be for the last frame to lie inside. */
  predicate HasFrame(size: nat, rank: nat, dims: seq<nat>) {
    && |dims| == 3 && (rank == 3 ==> dims[2] > 0)
    && dims[0] * dims[1] * (if rank == 3 then dims[2] else 1) <= size
  }

  /** In a three-dimensional data set of whole frames it is the last of them, in any other the first
      `dims[0]` * `dims[1]` pixels. */
  lemma FrameIsLast(data: seq<real>, rank: nat, dims: seq<nat>)
    requires HasFrame(|data|, rank, dims)
    ensures rank != 3 ==> FrameOf(data, rank, dims) == data[..dims[0] * dims[1]]
    ensures rank == 3 && |data| == dims[0] * dims[1] * dims[2] ==>
              data == data[..|data| - dims[0] * dims[1]] + FrameOf(data, rank, dims)
  {
    RowStartIsProduct(dims[0], dims[1]);
    var size := dims[0] * dims[1];
    if rank == 3 {
      assert size * (dims[2] - 1) + size == size * dims[2];
    }
  }

  /** The pixels of a column, from the top. */
  function Column(image: seq<real>, w: nat, h: nat, i: nat): seq<real>
    requires |image| == h * w && i < w
  {
    seq(h, j requires 0 <= j < h => Product(j, h, w); image[j * w + i])
  }

  lemma Product(j: nat, h: nat, w: nat)
    requires j < h
    ensures j * w + w <= h * w
  {
    assert (j + 1) * w <= h * w;
  }

  /** A column sum is the sum of the pixels `image[j * w + i]` of its column. */
  lemma {:induction false} ColumnSumIsSum(image: seq<real>, w: nat, h: nat, rows: nat, i: nat)
    requires IsImage(image, w, h) && |image| == h * w && rows <= h && i < w
    ensures ColumnSum(image, w, h, rows, i) == Sum(Column(image, w, h, i)[..rows])
    decreases rows
  {
    if rows > 0 {
      ColumnSumIsSum(image, w, h, rows - 1, i);
      SumAppend(Column(image, w, h, i), rows - 1);
      RowStartIsProduct(w, rows - 1);
      RowStartInside(w, rows - 1, h);
      Product(rows - 1, h, w);
    }
  }

  /** `integrate`: the column sums of the last frame, which add up to the sum of its pixels. */
  method Integrate(data: array<real>, rank: nat, dims: seq<nat>) returns (spectrum: array<real>)
    requires HasFrame(data.Length, rank, dims)
    ensures spectrum.Length == dims[0]
    ensures forall i :: 0 <= i < dims[0] ==>
      spectrum[i] == ColumnSum(FrameOf(data[..], rank, dims), dims[0], dims[1], dims[1], i)
    ensures Sum(spectrum[..]) == Sum(FrameOf(data[..], rank, dims))
  {
    var width, height := dims[0], dims[1];
    var frame := LastFrame(rank, dims[2]);
    FrameIsSlice(data[..], rank, dims);
    hide FrameOf, HasFrame, LastFrame, RowStart;
    spectrum := SumColumns(data, width * height * frame, width, height);
    IntegrationConservesCounts(spectrum[..], FrameOf(data[..], rank, dims), width, height);
  }

  lemma FrameIsSlice(data: seq<real>, rank: nat, dims: seq<nat>)
    requires HasFrame(|data|, rank, dims)
    ensures var start := dims[0] * dims[1] * LastFrame(rank, dims[2]);
            && 0 <= start && start + RowStart(dims[0], dims[1]) <= |data|
            && FrameOf(data, rank, dims) == data[start..start + RowStart(dims[0], dims[1])]
  {
    RowStartIsProduct(dims[0], dims[1]);
  }

  /** The loops of `integrate`, on the image that starts at `start`. */
  method SumColumns(data: array<real>, start: nat, width: nat, height: nat) returns (spectrum: array<real>)
    requires start + RowStart(width, height) <= data.Length
    ensures spectrum.Length == width
    ensures forall i :: 0 <= i < width ==>
      spectrum[i] == ColumnSum(data[start..start + RowStart(width, height)], width, height, height, i)
  {
    spectrum := new real[width](_ => 0.0);
    ghost var image := data[start..start + RowStart(width, height)];
    for j := 0 to height
      invariant forall k :: 0 <= k < width ==> spectrum[k] == ColumnSum(image, width, height, j, k)
    {
      RowStartIsProduct(width, j);
      ghost var row := RowStart(width, j);
      for i := 0 to width
        invariant forall k :: 0 <= k < i ==> spectrum[k] == ColumnSum(image, width, height, j + 1, k)
        invariant forall k :: i <= k < width ==> spectrum[k] == ColumnSum(image, width, height, j, k)
      {
        PixelAddress(data[..], width, height, start, j, i);
        spectrum[i] := spectrum[i] + data[start + (j * width + i)];
      }
    }
  }

  lemma PixelAddress(data: seq<real>, w: nat, h: nat, start: nat, j: nat, i: nat)
    requires start + RowStart(w, h) <= |data| && j < h && i < w
    ensures start + (RowStart(w, j) + i) < |data|
    ensures data[start + (RowStart(w, j) + i)] == Pixel(data[start..start + RowStart(w, h)], w, h, j, i)
  {
    RowStartInside(w, j, h);
  }

  lemma {:induction false} SumIsColumnTotal(spectrum: seq<real>, image: seq<real>, w: nat, h: nat, n: nat)
    requires IsImage(image, w, h) && |spectrum| == w && n <= w
    requires forall i :: 0 <= i < w ==> spectrum[i] == ColumnSum(image, w, h, h, i)
    ensures Sum(spectrum[..n]) == ColumnTotal(image, w, h, h, n)
    decreases n
  {
    if n > 0 {
      SumIsColumnTotal(spectrum, image, w, h, n - 1);
      assert spectrum[..n][..n - 1] == spectrum[..n - 1];
    }
  }

  /** Integration conserves counts: the column sums of a frame add up to the row-by-row total of
      its pixels, which is the sum of all of them. */
  lemma IntegrationConservesCounts(spectrum: seq<real>, image: seq<real>, w: nat, h: nat)
    requires IsImage(image, w, h) && |spectrum| == w
    requires forall i :: 0 <= i < w ==> spectrum[i] == ColumnSum(image, w, h, h, i)
    ensures Sum(spectrum) == RowTotal(image, w, h, h) == Sum(image)
  {
    SumIsColumnTotal(spectrum, image, w, h, w);
    ExchangeSums(image, w, h, h);
    RowTotalIsSum(image, w, h, h);
    assert spectrum[..w] == spectrum && image[..RowStart(w, h)] == image;
  }
}
