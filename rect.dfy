/**
  Sub-rectangle extraction from a full RGBA image, as `Texture.Pixels` does it:
  the image is row-major, `width` pixels per row, 4 bytes per pixel, with no
  padding between rows. Row `i` of the rectangle `(x, y, w, h)` is the byte
  range `[RowStart(i), RowEnd(i))` of the image.
 */
module Rect {
  import opened GlDriver

  /** Byte offset of the first byte of rectangle row `i` in the full image. */
  function RowStart(width: int, x: int, y: int, i: int): int {
    (i + y) * width * 4 + x * 4
  }

  /** Byte offset just past rectangle row `i` in the full image. */
  function RowEnd(width: int, x: int, y: int, w: int, i: int): int {
    (i + y) * width * 4 + (x + w) * 4
  }

  /**
    The Go code neither fails to allocate nor slices out of range: the result
    buffer has a non-negative length and every row slice lies inside an image
    of `size` bytes. Go panics exactly when this does not hold.
   */
  predicate SlicesInRange(size: int, width: int, x: int, y: int, w: int, h: int) {
    w * h * 4 >= 0 &&
    forall i :: 0 <= i < h ==> 0 <= RowStart(width, x, y, i) <= RowEnd(width, x, y, w, i) <= size
  }

  /** The rectangle lies inside a `width` by `height` texture. */
  predicate Inside(width: int, height: int, x: int, y: int, w: int, h: int) {
    0 <= x && 0 <= y && 0 <= w && 0 <= h && x + w <= width && y + h <= height
  }

  /** With at least one row to copy, the rectangle cannot have a negative width. */
  lemma SlicesInRangeWidth(size: int, width: int, x: int, y: int, w: int, h: int)
    requires SlicesInRange(size, width, x, y, w, h) && h > 0
    ensures w >= 0
  {
    assert RowStart(width, x, y, 0) <= RowEnd(width, x, y, w, 0);
  }

  /** The first `i` rows of a rectangle that slices in range also do. */
  lemma SlicesInRangePrefix(size: int, width: int, x: int, y: int, w: int, h: int, i: int)
    requires SlicesInRange(size, width, x, y, w, h)
    requires 0 <= i <= h
    ensures SlicesInRange(size, width, x, y, w, i)
  {
    if i > 0 {
      SlicesInRangeWidth(size, width, x, y, w, h);
      assert w * i * 4 >= 0;
    }
  }

  /**
    For a texture of non-negative width the rows of the rectangle lie one
    after another in the image, so Go's loop stays in range exactly when the
    rectangle has a non-negative width, its first row starts inside the image
    and its last row ends inside it.
   */
  lemma SlicesInRangeBounds(size: int, width: int, x: int, y: int, w: int, h: int)
    requires 0 <= width && 0 < h
    ensures SlicesInRange(size, width, x, y, w, h)
        <==> 0 <= w && 0 <= RowStart(width, x, y, 0) && RowEnd(width, x, y, w, h - 1) <= size
  {
    if SlicesInRange(size, width, x, y, w, h) {
      SlicesInRangeWidth(size, width, x, y, w, h);
      assert RowStart(width, x, y, 0) <= RowEnd(width, x, y, w, 0);
      assert RowStart(width, x, y, h - 1) <= RowEnd(width, x, y, w, h - 1) <= size;
    }
    if 0 <= w && 0 <= RowStart(width, x, y, 0) && RowEnd(width, x, y, w, h - 1) <= size {
      MulMonotone(0, w, h);
      forall i | 0 <= i < h
        ensures 0 <= RowStart(width, x, y, i) <= RowEnd(width, x, y, w, i) <= size
      {
        MulMonotone(y, i + y, width);
        MulMonotone(i + y, h - 1 + y, width);
      }
    }
  }

  /** `n` zero bytes, the contents of a freshly made Go byte slice. */
  function Zeros(n: nat): seq<uint8> {
    seq(n, _ => 0)
  }

  /** Copying `row` over the zeros just after a filled prefix extends the prefix. */
  lemma FillNext(before: seq<uint8>, after: seq<uint8>, prev: seq<uint8>, row: seq<uint8>)
    requires |prev| + |row| <= |before|
    requires before == prev + Zeros(|before| - |prev|)
    requires after == before[..|prev|] + row + before[|prev| + |row|..]
    ensures after == (prev + row) + Zeros(|before| - (|prev| + |row|))
  {
    assert before[..|prev|] == prev;
    assert before[|prev| + |row|..] == Zeros(|before| - (|prev| + |row|));
  }

  /** The number of rows Go's loop copies: `h`, or none when `h` is negative. */
  function RowCount(h: int): nat {
    if h < 0 then 0 else h
  }

  /**
    The bytes `Pixels` returns: the rectangle's rows, one after the other.
    With no row to copy the result is the zero-filled buffer Go allocates.
    Either way it holds `w * h * 4` bytes, the size of that buffer.
   */
  function SubRect(image: seq<uint8>, width: int, x: int, y: int, w: int, h: int): (r: seq<uint8>)
    requires SlicesInRange(|image|, width, x, y, w, h)
    ensures |r| == w * h * 4
    decreases RowCount(h)
  {
    if h <= 0 then Zeros(w * h * 4)
    else
      SlicesInRangePrefix(|image|, width, x, y, w, h, h - 1);
      SlicesInRangeWidth(|image|, width, x, y, w, h);
      assert RowEnd(width, x, y, w, h - 1) - RowStart(width, x, y, h - 1) == w * 4;
      assert w * (h - 1) * 4 + w * 4 == w * h * 4;
      SubRect(image, width, x, y, w, h - 1) + image[RowStart(width, x, y, h - 1)..RowEnd(width, x, y, w, h - 1)]
  }

  /** Taking one more row appends that row's bytes of the full image. */
  lemma SubRectStep(image: seq<uint8>, width: int, x: int, y: int, w: int, h: int, i: int)
    requires SlicesInRange(|image|, width, x, y, w, h)
    requires 0 <= i < h
    ensures SlicesInRange(|image|, width, x, y, w, i) && SlicesInRange(|image|, width, x, y, w, i + 1)
    ensures SubRect(image, width, x, y, w, i + 1)
         == SubRect(image, width, x, y, w, i) + image[RowStart(width, x, y, i)..RowEnd(width, x, y, w, i)]
  {
    SlicesInRangePrefix(|image|, width, x, y, w, h, i);
    SlicesInRangePrefix(|image|, width, x, y, w, h, i + 1);
  }

  /** Row `i` of the result is the matching byte range of source row `y + i`. */
  lemma {:induction false} SubRectRow(image: seq<uint8>, width: int, x: int, y: int, w: int, h: int, i: int)
    requires SlicesInRange(|image|, width, x, y, w, h)
    requires 0 <= i < h
    ensures 0 <= i * w * 4 <= (i + 1) * w * 4 <= w * h * 4
    ensures SubRect(image, width, x, y, w, h)[i * w * 4..(i + 1) * w * 4]
         == image[RowStart(width, x, y, i)..RowEnd(width, x, y, w, i)]
    decreases h
  {
    SlicesInRangeWidth(|image|, width, x, y, w, h);
    SlicesInRangePrefix(|image|, width, x, y, w, h, h - 1);
    var prefix := SubRect(image, width, x, y, w, h - 1);
    var last := image[RowStart(width, x, y, h - 1)..RowEnd(width, x, y, w, h - 1)];
    assert SubRect(image, width, x, y, w, h) == prefix + last;
    assert |prefix| == (h - 1) * w * 4;
    if i == h - 1 {
      assert (prefix + last)[i * w * 4..(i + 1) * w * 4] == last;
    } else {
      SubRectRow(image, width, x, y, w, h - 1, i);
      assert (i + 1) * w * 4 <= (h - 1) * w * 4;
      assert (prefix + last)[i * w * 4..(i + 1) * w * 4] == prefix[i * w * 4..(i + 1) * w * 4];
    }
  }

  /**
    Channel `c` of pixel `(j, i)` of the result is channel `c` of pixel
    `(x + j, y + i)` of the full image.
   */
  lemma SubRectPixel(image: seq<uint8>, width: int, x: int, y: int, w: int, h: int, i: int, j: int, c: int)
    requires SlicesInRange(|image|, width, x, y, w, h)
    requires 0 <= i < h && 0 <= j < w && 0 <= c < 4
    ensures 0 <= (i * w + j) * 4 + c < w * h * 4
    ensures 0 <= ((y + i) * width + x + j) * 4 + c < |image|
    ensures SubRect(image, width, x, y, w, h)[(i * w + j) * 4 + c] == image[((y + i) * width + x + j) * 4 + c]
  {
    SubRectRow(image, width, x, y, w, h, i);
    PixelOffsets(width, x, y, w, i, j, c);
    var row := image[RowStart(width, x, y, i)..RowEnd(width, x, y, w, i)];
    assert SubRect(image, width, x, y, w, h)[i * w * 4..(i + 1) * w * 4][j * 4 + c] == row[j * 4 + c];
  }

  /** Where pixel `(j, i)` of the rectangle sits in the result and in its image row. */
  lemma PixelOffsets(width: int, x: int, y: int, w: int, i: int, j: int, c: int)
    requires 0 <= i && 0 <= j < w && 0 <= c < 4
    ensures (i * w + j) * 4 + c == i * w * 4 + (j * 4 + c)
    ensures ((y + i) * width + x + j) * 4 + c == RowStart(width, x, y, i) + (j * 4 + c)
    ensures RowEnd(width, x, y, w, i) - RowStart(width, x, y, i) == w * 4
    ensures 0 <= j * 4 + c < w * 4
  {
    assert (y + i) * width * 4 == (i + y) * width * 4;
  }

  /** A rectangle inside the texture never makes the Go slicing panic. */
  lemma InsideSlicesInRange(width: int, height: int, x: int, y: int, w: int, h: int)
    requires Inside(width, height, x, y, w, h)
    ensures SlicesInRange(width * height * 4, width, x, y, w, h)
  {
    forall i | 0 <= i < h
      ensures 0 <= RowStart(width, x, y, i) <= RowEnd(width, x, y, w, i) <= width * height * 4
    {
      var row := i + y;
      MulMonotone(0, row, width);
      MulMonotone(row + 1, height, width);
      assert row * width * 4 + (x + w) * 4 <= (row + 1) * width * 4;
    }
  }

  /** Multiplying by a non-negative factor keeps the order. */
  lemma MulMonotone(a: int, b: int, c: int)
    requires a <= b && 0 <= c
    ensures a * c <= b * c
  {
    assert b * c - a * c == (b - a) * c;
  }

  /** Row `i` of a `w` by `h` rectangle occupies bytes `[i * w * 4, (i + 1) * w * 4)` of the result. */
  lemma RowOffsets(w: int, h: int, i: int)
    requires 0 <= i < h && 0 <= w
    ensures 0 <= i * w * 4
    ensures (i + 1) * w * 4 == i * w * 4 + w * 4
    ensures (i + 1) * w * 4 <= w * h * 4
    ensures w * i * 4 == i * w * 4
  {
    MulMonotone(0, i, w);
    MulMonotone(i + 1, h, w);
    assert (i + 1) * w == i * w + w;
    assert w * h == h * w;
  }

  /**
    Go does not check the rectangle against the texture. In any texture at
    least two rows high, a one-row rectangle in the first row that sticks out
    on the right by at most one row width is accepted: no slice is out of
    range, and the bytes past the right edge come from the start of the next
    image row. (In the last image row the same overhang runs past the end of
    the image, and Go panics.)
   */
  lemma OverhangWrapsToNextRow(image: seq<uint8>, width: int, height: int, x: int, w: int)
    requires 2 <= height && |image| == width * height * 4
    requires 0 <= x < width < x + w <= 2 * width
    ensures 2 * width * 4 <= |image|
    ensures !Inside(width, height, x, 0, w, 1)
    ensures SlicesInRange(|image|, width, x, 0, w, 1)
    ensures SubRect(image, width, x, 0, w, 1) == image[x * 4..width * 4] + image[width * 4..(x + w) * 4]
  {
    MulMonotone(2, height, width);
    SlicesInRangeBounds(|image|, width, x, 0, w, 1);
    assert RowStart(width, x, 0, 0) == x * 4 && RowEnd(width, x, 0, w, 0) == (x + w) * 4;
    assert SubRect(image, width, x, 0, w, 0) == [];
    assert image[x * 4..(x + w) * 4] == image[x * 4..width * 4] + image[width * 4..(x + w) * 4];
  }
}
