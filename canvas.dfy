/** The offscreen pixel buffer: an RGBA byte array of width x height pixels
    in row-major order, and the pixel write that converts the tracer's
    centred, y-up coordinates into a buffer position. */
module Canvas {
  import opened VectorMath

  newtype byte = x: int | 0 <= x < 256

  /** Rounding to the nearest integer, ties going to the even one. */
  function RoundHalfToEven(v: real): (r: int)
    ensures r as real - 0.5 <= v <= r as real + 0.5
    ensures v == r as real - 0.5 || v == r as real + 0.5 ==> r % 2 == 0
  {
    var f := v.Floor;
    var fraction := v - f as real;
    if fraction < 0.5 then f
    else if 0.5 < fraction then f + 1
    else if f % 2 == 0 then f
    else f + 1
  }

  /** The conversion a store into a clamped byte array applies to a number:
      values at or below 0 become 0, values at or above 255 become 255, and
      values in between are rounded to the nearest integer, ties to even. */
  function ToUint8Clamp(v: real): (r: byte)
    ensures v <= 0.0 ==> r == 0
    ensures 255.0 <= v ==> r == 255
    ensures 0.0 <= v <= 255.0 ==> r as real - 0.5 <= v <= r as real + 0.5
  {
    if v <= 0.0 then 0
    else if 255.0 <= v then 255
    else RoundHalfToEven(v) as byte
  }

  /** An integral channel value is stored unchanged. */
  lemma ToUint8ClampKeepsBytes(b: byte)
    ensures ToUint8Clamp(b as int as real) == b
  {
  }

  lemma ToUint8ClampTies()
    ensures ToUint8Clamp(0.5) == 0 && ToUint8Clamp(1.5) == 2 && ToUint8Clamp(2.5) == 2
    ensures ToUint8Clamp(254.5) == 254 && ToUint8Clamp(-3.0) == 0 && ToUint8Clamp(300.0) == 255
  {
  }

  /** The four bytes stored for a colour: red, green, blue, and an opaque alpha. */
  datatype Rgba = Rgba(r: byte, g: byte, b: byte, a: byte)

  function PixelBytes(color: Color): Rgba {
    Rgba(ToUint8Clamp(color.x), ToUint8Clamp(color.y), ToUint8Clamp(color.z), 255)
  }

  /** The four bytes starting at offset. */
  function PixelAt(buf: seq<byte>, offset: int): Rgba
    requires 0 <= offset && offset + 4 <= |buf|
  {
    Rgba(buf[offset], buf[offset + 1], buf[offset + 2], buf[offset + 3])
  }

  /** The column of canvas x (x = 0 is the centre). */
  function Column(width: int, x: int): int {
    width / 2 + x
  }

  /** The row of canvas y (y = 0 is just above the centre, and y grows upwards). */
  function Row(height: int, y: int): int {
    height / 2 - y - 1
  }

  /** Bytes per row. */
  function Pitch(width: int): int {
    width * 4
  }

  /** The first byte of the pixel in the given column and row. */
  function Offset(width: int, col: int, row: int): int {
    4 * col + Pitch(width) * row
  }

  /** Integer division is unique: a quotient and remainder in range are the ones `/` and `%` give. */
  lemma DivModUnique(n: int, d: int, q: int, r: int)
    requires 0 < d && 0 <= r < d && n == q * d + r
    ensures n / d == q && n % d == r
  {
    var q' := n / d;
    var r' := n % d;
    assert (q - q') * d == r' - r;
    if q < q' {
      MultiplyAtLeastOne(q' - q, d);
    } else if q' < q {
      MultiplyAtLeastOne(q - q', d);
    }
  }

  lemma MultiplyAtLeastOne(k: int, d: int)
    requires 1 <= k && 0 < d
    ensures d <= k * d
  {
  }

  /** The pixel index col + width * row recovers its column and row. */
  lemma PixelIndexInverse(width: int, col: int, row: int)
    requires 0 <= col < width
    ensures (col + width * row) / width == row && (col + width * row) % width == col
  {
    DivModUnique(col + width * row, width, row, col);
  }

  /** Offsets are four times the pixel index. */
  lemma OffsetIsFourTimesIndex(width: int, col: int, row: int)
    ensures Offset(width, col, row) == 4 * (col + width * row)
  {
  }

  /** The pixel of an in-bounds column and row lies wholly inside the buffer. */
  lemma OffsetInBounds(width: int, height: int, col: int, row: int)
    requires 0 <= col < width && 0 <= row < height
    ensures 0 <= Offset(width, col, row)
    ensures Offset(width, col, row) + 4 <= 4 * width * height
  {
    OffsetIsFourTimesIndex(width, col, row);
    MultiplyAtLeastOne(height - row, width);
    assert width * row + width <= width * height by {
      assert (height - row) * width == width * height - width * row;
    }
  }

  /** Two different in-bounds pixels occupy disjoint four-byte blocks. */
  lemma OffsetsDisjoint(width: int, col1: int, row1: int, col2: int, row2: int)
    requires 0 <= col1 < width && 0 <= col2 < width
    requires (col1, row1) != (col2, row2)
    ensures Offset(width, col1, row1) + 4 <= Offset(width, col2, row2) ||
            Offset(width, col2, row2) + 4 <= Offset(width, col1, row1)
  {
    OffsetIsFourTimesIndex(width, col1, row1);
    OffsetIsFourTimesIndex(width, col2, row2);
    PixelIndexInverse(width, col1, row1);
    PixelIndexInverse(width, col2, row2);
  }

  /** The buffer after storing a colour's four bytes at offset: those four
      bytes read back as the colour's bytes and every other byte is kept. */
  function WritePixel(buf: seq<byte>, offset: int, color: Color): (r: seq<byte>)
    requires 0 <= offset && offset + 4 <= |buf|
    ensures |r| == |buf|
    ensures PixelAt(r, offset) == PixelBytes(color)
    ensures forall k :: 0 <= k < |buf| && !(offset <= k < offset + 4) ==> r[k] == buf[k]
  {
    var p := PixelBytes(color);
    buf[..offset] + [p.r, p.g, p.b, p.a] + buf[offset + 4..]
  }

  /** A write leaves a pixel whose block it does not overlap as it was. */
  lemma WriteKeepsOtherPixel(buf: seq<byte>, offset: int, color: Color, other: int)
    requires 0 <= offset && offset + 4 <= |buf|
    requires 0 <= other && other + 4 <= |buf|
    requires offset + 4 <= other || other + 4 <= offset
    ensures PixelAt(WritePixel(buf, offset, color), other) == PixelAt(buf, other)
  {
  }

  /** Canvas coordinates: columns -width/2 .. width/2 - 1 and rows
      -height/2 .. height/2 - 1, the ranges the render loop visits. */
  predicate OnCanvas(width: int, height: int, x: int, y: int) {
    -(width / 2) <= x < width / 2 && -(height / 2) <= y < height / 2
  }

  /** With even dimensions, every point of the render loop maps onto the
      canvas, and the mapping is one-to-one: x and y are recovered from the
      column and row. */
  lemma OnCanvasInBounds(width: int, height: int, x: int, y: int)
    requires 0 < width && 0 < height && width % 2 == 0 && height % 2 == 0
    requires OnCanvas(width, height, x, y)
    ensures 0 <= Column(width, x) < width && 0 <= Row(height, y) < height
    ensures x == Column(width, x) - width / 2 && y == height / 2 - 1 - Row(height, y)
  {
  }

  /** Conversely every pixel of the buffer is reached from one canvas point. */
  lemma EveryPixelOnCanvas(width: int, height: int, col: int, row: int)
    requires 0 < width && 0 < height && width % 2 == 0 && height % 2 == 0
    requires 0 <= col < width && 0 <= row < height
    ensures OnCanvas(width, height, col - width / 2, height / 2 - 1 - row)
    ensures Column(width, col - width / 2) == col && Row(height, height / 2 - 1 - row) == row
  {
  }

  /** The first byte of the pixel at canvas point (x, y). */
  function PointOffset(width: int, height: int, x: int, y: int): int {
    Offset(width, Column(width, x), Row(height, y))
  }

  /** Different canvas points have disjoint pixel blocks inside the buffer. */
  lemma PointsDisjoint(width: int, height: int, x1: int, y1: int, x2: int, y2: int)
    requires 0 < width && 0 < height && width % 2 == 0 && height % 2 == 0
    requires OnCanvas(width, height, x1, y1) && OnCanvas(width, height, x2, y2)
    requires (x1, y1) != (x2, y2)
    ensures 0 <= PointOffset(width, height, x1, y1) && PointOffset(width, height, x1, y1) + 4 <= 4 * width * height
    ensures PointOffset(width, height, x1, y1) + 4 <= PointOffset(width, height, x2, y2) ||
            PointOffset(width, height, x2, y2) + 4 <= PointOffset(width, height, x1, y1)
  {
    OnCanvasInBounds(width, height, x1, y1);
    OnCanvasInBounds(width, height, x2, y2);
    OffsetInBounds(width, height, Column(width, x1), Row(height, y1));
    OffsetsDisjoint(width, Column(width, x1), Row(height, y1), Column(width, x2), Row(height, y2));
  }

  /** The pixel of a canvas point lies inside the buffer. */
  lemma PointInBuffer(width: int, height: int, x: int, y: int)
    requires 0 < width && 0 < height && width % 2 == 0 && height % 2 == 0
    requires OnCanvas(width, height, x, y)
    ensures 0 <= PointOffset(width, height, x, y) && PointOffset(width, height, x, y) + 4 <= 4 * width * height
  {
    OnCanvasInBounds(width, height, x, y);
    OffsetInBounds(width, height, Column(width, x), Row(height, y));
  }

  /** Writing the pixel of one canvas point leaves the pixels of all other
      canvas points as they were. */
  lemma WriteKeepsOtherPoints(width: int, height: int, buf: seq<byte>, x: int, y: int, color: Color)
    requires 0 < width && 0 < height && width % 2 == 0 && height % 2 == 0
    requires |buf| == 4 * width * height && OnCanvas(width, height, x, y)
    ensures (PointInBuffer(width, height, x, y);
      var written := WritePixel(buf, PointOffset(width, height, x, y), color);
      forall x', y' :: OnCanvas(width, height, x', y') && (x', y') != (x, y) ==>
        (PointInBuffer(width, height, x', y');
         PixelAt(written, PointOffset(width, height, x', y')) == PixelAt(buf, PointOffset(width, height, x', y'))))
  {
    PointInBuffer(width, height, x, y);
    var written := WritePixel(buf, PointOffset(width, height, x, y), color);
    forall x', y' | OnCanvas(width, height, x', y') && (x', y') != (x, y)
      ensures (PointInBuffer(width, height, x', y');
        PixelAt(written, PointOffset(width, height, x', y')) == PixelAt(buf, PointOffset(width, height, x', y')))
    {
      PointsDisjoint(width, height, x', y', x, y);
      PointInBuffer(width, height, x', y');
      WriteKeepsOtherPixel(buf, PointOffset(width, height, x, y), color, PointOffset(width, height, x', y'));
    }
  }

  /** In the buffer, the pixel at canvas point (x, y) shows the colour. */
  predicate ShowsIn(buf: seq<byte>, width: int, height: int, x: int, y: int, color: Color) {
    var offset := PointOffset(width, height, x, y);
    0 <= offset && offset + 4 <= |buf| && PixelAt(buf, offset) == PixelBytes(color)
  }

  /** The image data of the canvas: its dimensions and its RGBA bytes. */
  class Canvas {
    const width: int
    const height: int
    const data: array<byte>

    ghost predicate Valid() {
      0 < width && 0 < height && width % 2 == 0 && height % 2 == 0 &&
      data.Length == 4 * width * height
    }

    /** A buffer of the given even dimensions with every byte 0, as the
        image data of a fresh canvas is. */
    constructor (w: int, h: int)
      requires 0 < w && 0 < h && w % 2 == 0 && h % 2 == 0
      ensures Valid() && width == w && height == h && fresh(data)
      ensures forall k :: 0 <= k < data.Length ==> data[k] == 0
    {
      width, height := w, h;
      data := new byte[4 * w * h](_ => 0);
    }

    /** Stores a colour at canvas point (x, y): nothing happens when the
        point falls outside the canvas; otherwise exactly the four bytes of
        that pixel are written, red, green, blue, then an opaque alpha. */
    method PutPixel(x: int, y: int, color: Color)
      requires Valid()
      modifies data
      ensures var col := Column(width, x);
        var row := Row(height, y);
        if 0 <= col < width && 0 <= row < height then
          OffsetInBounds(width, height, col, row);
          data[..] == WritePixel(old(data[..]), Offset(width, col, row), color)
        else
          data[..] == old(data[..])
    {
      var col := width / 2 + x;
      var row := height / 2 - y - 1;

      if col < 0 || col >= width || row < 0 || row >= height {
        return;
      }

      OffsetInBounds(width, height, col, row);
      var offset := 4 * col + Pitch(width) * row;
      data[offset] := ToUint8Clamp(color.x);
      offset := offset + 1;
      data[offset] := ToUint8Clamp(color.y);
      offset := offset + 1;
      data[offset] := ToUint8Clamp(color.z);
      offset := offset + 1;
      data[offset] := 255;
    }
  }
}
