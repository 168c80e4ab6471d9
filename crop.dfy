/** `resize_and_center_crop`: bring a reference photo to a `size` x `size` square by an
    aspect-preserving resize followed by a centre crop of the long side.
    `cv2.resize` is modelled only by the shape it returns; the slicing is Python's. */
module Crop {
  import PySlice

  /** An image's number of rows (height) and columns (width); the colour axis is never touched. */
  datatype Shape = Shape(height: nat, width: nat)

  /** The branch `resize_and_center_crop` takes and the numbers it computes in it. */
  datatype CropPlan =
    /** H == W: resize straight to size x size. */
    | ResizeOnly
    /** H > W: resize to width `size`, height `currentSize`, then keep rows `[marginL:-marginR]`. */
    | CropRows(currentSize: nat, marginL: int, marginR: int)
    /** H < W: resize to height `size`, width `currentSize`, then keep columns `[marginL:-marginR]`. */
    | CropCols(currentSize: nat, marginL: int, marginR: int)

  /** A photo that was read has at least one row and one column. */
  predicate ValidSource(src: Shape)
  {
    src.height > 0 && src.width > 0
  }

  /** Multiplying by a non-negative factor keeps the order. */
  lemma MulLeftMono(d: int, a: int, b: int)
    requires d >= 0 && a <= b
    ensures d * a <= d * b
  {
    assert d * b - d * a == d * (b - a);
  }

  /** `x / d` is at least `k` exactly when `x` is at least `d * k` (floor division, `d > 0`). */
  lemma FloorDivAtLeast(x: int, d: int, k: int)
    requires d > 0
    ensures x / d >= k <==> x >= d * k
  {
    var q := x / d;
    assert x == d * q + x % d;
    if q >= k {
      MulLeftMono(d, k, q);
    } else {
      MulLeftMono(d, q + 1, k);
      assert d * (q + 1) == d * q + d;
    }
  }

  /** Scaling the long side to a short side of `size` never gives less than `size`. */
  lemma ScaledLongSideAtLeast(size: nat, long: nat, short: nat)
    requires 0 < short < long
    ensures size * long / short >= size
  {
    assert size * long - size * short == size * (long - short);
    FloorDivAtLeast(size * long, short, size);
  }

  /** `current_size = int(size*long/short)`: the long side after the resize, as exact floor division. */
  function CurrentSize(src: Shape, size: nat): (c: nat)
    requires ValidSource(src) && size > 0
    ensures src.height != src.width ==> c >= size
  {
    if src.height > src.width then
      ScaledLongSideAtLeast(size, src.height, src.width);
      size * src.height / src.width
    else if src.height < src.width then
      ScaledLongSideAtLeast(size, src.width, src.height);
      size * src.width / src.height
    else
      size
  }

  /** The branch and margins: the surplus `currentSize - size` of the long side is split into a
      leading and a trailing margin, and any odd pixel goes to the trailing one. */
  function Plan(src: Shape, size: nat): (p: CropPlan)
    requires ValidSource(src) && size > 0
    ensures p.ResizeOnly? <==> src.height == src.width
    ensures p.CropRows? <==> src.height > src.width
    ensures !p.ResizeOnly? ==> p.currentSize == CurrentSize(src, size) >= size
    ensures !p.ResizeOnly? ==> 0 <= p.marginL && p.marginL + size + p.marginR == p.currentSize
    ensures !p.ResizeOnly? ==> p.marginL <= p.marginR <= p.marginL + 1
  {
    if src.height == src.width then ResizeOnly
    else
      var current := CurrentSize(src, size);
      var marginL := (current - size) / 2;
      var marginR := current - marginL - size;
      if src.height > src.width then CropRows(current, marginL, marginR)
      else CropCols(current, marginL, marginR)
  }

  /** The shape `cv2.resize` is asked for: `(width, height)` is `(size, size)`,
      `(size, currentSize)` or `(currentSize, size)`. */
  function ResizedShape(p: CropPlan, size: nat): Shape
  {
    match p
    case ResizeOnly => Shape(size, size)
    case CropRows(c, _, _) => Shape(c, size)
    case CropCols(c, _, _) => Shape(size, c)
  }

  /** The output shape of `resize_and_center_crop` as written (slices `[marginL:-marginR]`).
      It is `size` x `size` only when the source is square or the resize leaves a surplus;
      when the long side comes out at exactly `size`, `-0` empties the cropped axis. */
  function ResizeAndCenterCrop(src: Shape, size: nat): (r: Shape)
    requires ValidSource(src) && size > 0
    ensures src.height == src.width ==> r == Shape(size, size)
    ensures src.height > src.width ==>
      r.width == size && r.height == if CurrentSize(src, size) > size then size else 0
    ensures src.height < src.width ==>
      r.height == size && r.width == if CurrentSize(src, size) > size then size else 0
  {
    match Plan(src, size)
    case ResizeOnly => Shape(size, size)
    case CropRows(c, l, m) =>
      PySlice.TrailingMarginSlice(c, l, m);
      Shape(PySlice.SliceLen(c, l, -m), size)
    case CropCols(c, l, m) =>
      PySlice.TrailingMarginSlice(c, l, m);
      Shape(size, PySlice.SliceLen(c, l, -m))
  }

  /** The resized long side exceeds `size` exactly when `size * (long - short) >= short`. */
  lemma SurplusIff(size: nat, long: nat, short: nat)
    requires 0 < short < long
    ensures size * long / short > size <==> size * (long - short) >= short
  {
    FloorDivAtLeast(size * long, short, size + 1);
    assert short * (size + 1) == size * short + short;
    assert size * (long - short) == size * long - size * short;
  }

  /** Exactly when the as-written crop returns a square, in terms of the source's sides:
      a tall source must satisfy `size * (H - W) >= W` (symmetrically for a wide one). */
  lemma AsWrittenSquareIff(src: Shape, size: nat)
    requires ValidSource(src) && size > 0
    ensures ResizeAndCenterCrop(src, size) == Shape(size, size) <==>
      || src.height == src.width
      || (src.height > src.width && size * (src.height - src.width) >= src.width)
      || (src.height < src.width && size * (src.width - src.height) >= src.height)
  {
    if src.height > src.width {
      SurplusIff(size, src.height, src.width);
    } else if src.height < src.width {
      SurplusIff(size, src.width, src.height);
    }
  }

  /** A 1000 x 999 photo cropped to 512: `int(512*1000/999)` is 512, both margins are 0,
      and `img[0:-0]` keeps no rows at all. */
  lemma EmptyCropExample()
    ensures CurrentSize(Shape(1000, 999), 512) == 512
    ensures ResizeAndCenterCrop(Shape(1000, 999), 512) == Shape(0, 512)
  {
  }

  /** A 999 x 1000 photo cropped to 512: `int(512*1000/999)` is 512, both margins are 0,
      and `img[:, 0:-0]` keeps no columns at all. */
  lemma EmptyColumnCropExample()
    ensures CurrentSize(Shape(999, 1000), 512) == 512
    ensures ResizeAndCenterCrop(Shape(999, 1000), 512) == Shape(512, 0)
  {
  }

  /** The centre crop as evidently intended: keep `size` rows (or columns) starting after the
      leading margin, i.e. the slice `[marginL:marginL+size]`. Always `size` x `size`. */
  function CenterCropFixed(src: Shape, size: nat): (r: Shape)
    requires ValidSource(src) && size > 0
    ensures r == Shape(size, size)
  {
    match Plan(src, size)
    case ResizeOnly => Shape(size, size)
    case CropRows(c, l, _) => Shape(PySlice.SliceLen(c, l, l + size), size)
    case CropCols(c, l, _) => Shape(size, PySlice.SliceLen(c, l, l + size))
  }

  /** A grid of pixels (rows of columns) has shape `s`. */
  predicate IsGrid<P>(g: seq<seq<P>>, s: Shape)
  {
    |g| == s.height && forall i :: 0 <= i < |g| ==> |g[i]| == s.width
  }

  /** The slicing step applied to the resized grid: `img[l:-m, :]` or `img[:, l:-m]`. */
  function CropGrid<P>(p: CropPlan, resized: seq<seq<P>>): (out: seq<seq<P>>)
    ensures p.ResizeOnly? ==> out == resized
    // a row crop keeps whole rows: the resized rows from the resolved leading margin on
    ensures p.CropRows? ==>
      && |out| == PySlice.SliceLen(|resized|, p.marginL, -p.marginR)
      && forall i :: 0 <= i < |out| ==>
           PySlice.Bound(|resized|, p.marginL) + i < |resized| && out[i] == resized[PySlice.Bound(|resized|, p.marginL) + i]
    // a column crop keeps every row, each cut to the same column window
    ensures p.CropCols? ==>
      && |out| == |resized|
      && forall i :: 0 <= i < |out| ==>
           && |out[i]| == PySlice.SliceLen(|resized[i]|, p.marginL, -p.marginR)
           && forall j :: 0 <= j < |out[i]| ==>
                PySlice.Bound(|resized[i]|, p.marginL) + j < |resized[i]|
                && out[i][j] == resized[i][PySlice.Bound(|resized[i]|, p.marginL) + j]
  {
    match p
    case ResizeOnly => resized
    case CropRows(_, l, m) => PySlice.Slice(resized, l, -m)
    case CropCols(_, l, m) => seq(|resized|, i requires 0 <= i < |resized| => PySlice.Slice(resized[i], l, -m))
  }

  /** The kept pixels of a row crop `img[l:-m, :]` are the resized rows shifted by `l`. */
  lemma CropRowsWindow<P>(resized: seq<seq<P>>, size: nat, c: nat, l: int, m: int)
    requires 0 <= l && 0 <= m && l + size + m == c
    requires IsGrid(resized, Shape(c, size))
    ensures IsGrid(CropGrid(CropRows(c, l, m), resized), Shape(if m == 0 then 0 else size, size))
    ensures var out := CropGrid(CropRows(c, l, m), resized);
      forall i, j :: 0 <= i < |out| && 0 <= j < |out[i]| ==>
        i + l < |resized| && j < |resized[i + l]| && out[i][j] == resized[i + l][j]
  {
    PySlice.TrailingMarginSlice(c, l, m);
  }

  /** The kept pixels of a column crop `img[:, l:-m]` are the resized columns shifted by `l`. */
  lemma CropColsWindow<P>(resized: seq<seq<P>>, size: nat, c: nat, l: int, m: int)
    requires 0 <= l && 0 <= m && l + size + m == c
    requires IsGrid(resized, Shape(size, c))
    ensures IsGrid(CropGrid(CropCols(c, l, m), resized), Shape(size, if m == 0 then 0 else size))
    ensures var out := CropGrid(CropCols(c, l, m), resized);
      forall i, j :: 0 <= i < |out| && 0 <= j < |out[i]| ==>
        i < |resized| && j + l < |resized[i]| && out[i][j] == resized[i][j + l]
  {
    PySlice.TrailingMarginSlice(c, l, m);
    var out := CropGrid(CropCols(c, l, m), resized);
    forall i, j | 0 <= i < |out| && 0 <= j < |out[i]|
      ensures j + l < |resized[i]| && out[i][j] == resized[i][j + l]
    {
      assert out[i] == PySlice.Slice(resized[i], l, -m);
    }
  }

  /** Slicing a grid of the resized shape gives a grid of exactly the shape `ResizeAndCenterCrop`
      states; which pixels are kept is stated per branch by `CropRowsWindow` and `CropColsWindow`. */
  lemma CropGridShape<P>(src: Shape, size: nat, resized: seq<seq<P>>)
    requires ValidSource(src) && size > 0
    requires IsGrid(resized, ResizedShape(Plan(src, size), size))
    ensures IsGrid(CropGrid(Plan(src, size), resized), ResizeAndCenterCrop(src, size))
  {
    match Plan(src, size)
    case ResizeOnly =>
    case CropRows(c, l, m) =>
      CropRowsWindow(resized, size, c, l, m);
    case CropCols(c, l, m) =>
      CropColsWindow(resized, size, c, l, m);
  }
}
