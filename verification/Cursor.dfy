/** Decoding captured cursor shapes into RGBA pixels. */
module Cursor {
  import opened Bytes

  datatype Rgba = Rgba(r: byte, g: byte, b: byte, a: byte)

  const BLANK := Rgba(0, 0, 0, 0)
  const BLACK := Rgba(0, 0, 0, 255)
  const WHITE := Rgba(255, 255, 255, 255)

  // ----- what each pixel should be

  /** The distance between rows; four times the width is computed in 32 bits. */
  function RowPitch(width: u32, pitch: u32): u32 {
    var row := width * 4 % 0x1_0000_0000;
    if pitch < row then row else pitch
  }

  /** Red and blue swapped, or blank where the shape does not hold all four bytes. */
  function ColorBytes(raw: seq<byte>, src: nat): Rgba {
    if src + 4 <= |raw| then Rgba(raw[src + 2], raw[src + 1], raw[src], raw[src + 3]) else BLANK
  }

  function ColorPixel(raw: seq<byte>, rowPitch: u32, y: nat, x: nat): Rgba {
    ColorBytes(raw, y * rowPitch + x * 4)
  }

  function BitValue(k: nat): (v: nat)
    requires k < 8
  {
    [128, 64, 32, 16, 8, 4, 2, 1][k]
  }

  /** Bit x of a row of bits that starts at the given byte, most significant first; false where the byte is missing. */
  predicate BitSet(raw: seq<byte>, row: nat, x: nat) {
    row + x / 8 < |raw| && raw[row + x / 8] / BitValue(x % 8) % 2 == 1
  }

  function BytesPerRow(width: u32): nat {
    (width + 7) / 8
  }

  function MonochromeBits(raw: seq<byte>, andRow: nat, xorRow: nat, x: nat): Rgba {
    if BitSet(raw, xorRow, x) then WHITE else if BitSet(raw, andRow, x) then BLANK else BLACK
  }

  /** The AND mask's plane of rows is followed by the XOR mask's. */
  function MonochromePixel(raw: seq<byte>, width: u32, height: u32, y: nat, x: nat): Rgba {
    var stride := BytesPerRow(width);
    MonochromeBits(raw, y * stride, stride * height + y * stride, x)
  }

  // ----- pictures

  /** The rows of a picture, top to bottom. */
  function Picture(f: (nat, nat) -> Rgba, width: nat, height: nat): (r: seq<Rgba>)
    ensures |r| == height * width
    decreases height
  {
    if height == 0 then []
    else
      NextRow(width, height - 1);
      Picture(f, width, height - 1) + Row(f, width, height - 1)
  }

  function Row(f: (nat, nat) -> Rgba, width: nat, y: nat): (r: seq<Rgba>)
    ensures |r| == width && forall x | 0 <= x < width :: r[x] == f(y, x)
  {
    seq(width, x requires 0 <= x < width => f(y, x))
  }

  function Blanks(n: nat): (r: seq<Rgba>)
    ensures |r| == n && forall i | 0 <= i < n :: r[i] == BLANK
  {
    seq(n, _ => BLANK)
  }

  lemma NextRow(width: nat, y: nat)
    ensures (y + 1) * width == y * width + width
  {}

  lemma RowsBelow(n: nat, a: nat, b: nat)
    requires a <= b
    ensures a * n <= b * n
  {}

  /** The pixel in row y and column x of a picture. */
  lemma {:induction false} PictureAt(f: (nat, nat) -> Rgba, width: nat, height: nat, y: nat, x: nat)
    requires y < height && x < width
    ensures y * width + x < height * width
    ensures Picture(f, width, height)[y * width + x] == f(y, x)
    decreases height
  {
    NextRow(width, height - 1);
    if y == height - 1 {
    } else {
      PictureAt(f, width, height - 1, y, x);
    }
  }

  lemma {:induction false} BlankRows(f: (nat, nat) -> Rgba, width: nat, y: nat, height: nat)
    requires y <= height
    requires forall j: nat, x: nat | y <= j < height && x < width :: f(j, x) == BLANK
    ensures y * width <= height * width
    ensures Picture(f, width, height) == Picture(f, width, y) + Blanks(height * width - y * width)
    decreases height
  {
    RowsBelow(width, y, height);
    if y >= height {
    } else {
      NextRow(width, height - 1);
      BlankRows(f, width, y, height - 1);
      assert Row(f, width, height - 1) == Blanks(width);
      assert Blanks((height - 1) * width - y * width) + Blanks(width) == Blanks(height * width - y * width);
    }
  }

  function ColorPicture(raw: seq<byte>, rowPitch: u32): (nat, nat) -> Rgba {
    (y: nat, x: nat) => ColorPixel(raw, rowPitch, y, x)
  }

  function MonochromePicture(raw: seq<byte>, width: u32, height: u32): (nat, nat) -> Rgba {
    (y: nat, x: nat) => MonochromePixel(raw, width, height, y, x)
  }

  // ----- pixels in a byte array

  function Pixel(a: array<byte>, p: nat): Rgba
    requires p * 4 + 4 <= a.Length
    reads a
  {
    Rgba(a[p * 4], a[p * 4 + 1], a[p * 4 + 2], a[p * 4 + 3])
  }

  function Pixels(a: array<byte>): (r: seq<Rgba>)
    reads a
    ensures |r| == a.Length / 4 && forall p | 0 <= p < |r| :: r[p] == Pixel(a, p)
  {
    seq(a.Length / 4, p requires 0 <= p < a.Length / 4 reads a => Pixel(a, p))
  }

  method SetPixel(a: array<byte>, offset: nat, c: Rgba, ghost p: nat)
    requires offset == p * 4 && offset + 4 <= a.Length
    modifies a
    ensures Pixels(a) == old(Pixels(a))[p := c]
  {
    a[offset] := c.r;
    a[offset + 1] := c.g;
    a[offset + 2] := c.b;
    a[offset + 3] := c.a;
  }

  // ----- the row loops

  method DecodeColorRow(raw: seq<byte>, srcRow: nat, rgba: array<byte>, dstRow: nat, width: u32,
                        ghost base: nat, ghost row: seq<Rgba>)
    requires dstRow == base * 4 && dstRow + width * 4 <= rgba.Length
    requires |row| == width && forall i | 0 <= i < width :: row[i] == ColorBytes(raw, srcRow + i * 4)
    requires forall q | base <= q < base + width :: Pixels(rgba)[q] == BLANK
    modifies rgba
    ensures Pixels(rgba)[..base] == old(Pixels(rgba)[..base])
    ensures Pixels(rgba)[base + width..] == old(Pixels(rgba)[base + width..])
    ensures Pixels(rgba)[base..base + width] == row
  {
    for x := 0 to width
      invariant Pixels(rgba)[..base] == old(Pixels(rgba)[..base])
      invariant Pixels(rgba)[base + width..] == old(Pixels(rgba)[base + width..])
      invariant forall q | base <= q < base + x :: Pixels(rgba)[q] == row[q - base]
      invariant forall q | base + x <= q < base + width :: Pixels(rgba)[q] == BLANK
    {
      var src := srcRow + x * 4;
      var dst := dstRow + x * 4;
      if src + 4 > |raw| || dst + 4 > rgba.Length {
        break;
      }
      var b, g, r, a := raw[src], raw[src + 1], raw[src + 2], raw[src + 3];
      SetPixel(rgba, dst, Rgba(r, g, b, a), base + x);
    }
  }

  method DecodeMonochromeRow(raw: seq<byte>, andRow: nat, xorRow: nat, rgba: array<byte>, width: u32, base: nat,
                             ghost row: seq<Rgba>)
    requires (base + width) * 4 <= rgba.Length
    requires |row| == width && forall i | 0 <= i < width :: row[i] == MonochromeBits(raw, andRow, xorRow, i)
    modifies rgba
    ensures Pixels(rgba)[..base] == old(Pixels(rgba)[..base])
    ensures Pixels(rgba)[base + width..] == old(Pixels(rgba)[base + width..])
    ensures Pixels(rgba)[base..base + width] == row
  {
    for x := 0 to width
      invariant Pixels(rgba)[..base] == old(Pixels(rgba)[..base])
      invariant Pixels(rgba)[base + width..] == old(Pixels(rgba)[base + width..])
      invariant forall q | base <= q < base + x :: Pixels(rgba)[q] == row[q - base]
    {
      var andSet := BitSet(raw, andRow, x);
      var xorSet := BitSet(raw, xorRow, x);
      var offset := (base + x) * 4;
      match (andSet, xorSet)
      case (false, false) => SetPixel(rgba, offset, Rgba(0, 0, 0, 255), base + x);
      case (false, true) => SetPixel(rgba, offset, Rgba(255, 255, 255, 255), base + x);
      case (true, false) => SetPixel(rgba, offset, Rgba(0, 0, 0, 0), base + x);
      case (true, true) => SetPixel(rgba, offset, Rgba(255, 255, 255, 255), base + x);
    }
  }

  // ----- whole shapes

  lemma RowDone(before: seq<Rgba>, after: seq<Rgba>, done: seq<Rgba>, row: seq<Rgba>, base: nat, width: nat, n: nat)
    requires |done| == base && base + width <= n && |row| == width
    requires before == done + Blanks(n - base) && |after| == n
    requires after[..base] == before[..base] && after[base + width..] == before[base + width..]
    requires after[base..base + width] == row
    ensures after == done + row + Blanks(n - (base + width))
  {
    assert before[base + width..] == Blanks(n - (base + width));
    assert after == after[..base] + after[base..base + width] + after[base + width..];
  }

  lemma EmptyPicture(f: (nat, nat) -> Rgba, width: nat, height: nat)
    ensures width == 0 || height == 0 ==> Picture(f, width, height) == Blanks(height * width)
  {}

  /** From a row that starts behind the end on, everything is blank. */
  lemma ColorBlankBelow(raw: seq<byte>, rowPitch: u32, width: nat, y: nat, height: nat)
    requires y <= height && y * rowPitch >= |raw|
    ensures var f := ColorPicture(raw, rowPitch);
            && y * width <= height * width
            && Picture(f, width, height) == Picture(f, width, y) + Blanks(height * width - y * width)
  {
    var f := ColorPicture(raw, rowPitch);
    forall j: nat, x: nat | y <= j ensures f(j, x) == BLANK {
      RowsBelow(rowPitch, y, j);
    }
    BlankRows(f, width, y, height);
  }

  lemma NonNegative(a: nat, b: nat)
    ensures a * b >= 0
  {}

  lemma ColorRow(raw: seq<byte>, rowPitch: u32, width: nat, y: nat, srcRow: nat)
    requires srcRow == y * rowPitch
    ensures forall i | 0 <= i < width :: Row(ColorPicture(raw, rowPitch), width, y)[i] == ColorBytes(raw, srcRow + i * 4)
  {}

  lemma MonochromeRow(raw: seq<byte>, width: u32, height: u32, y: nat, andRow: nat, xorRow: nat)
    requires andRow == y * BytesPerRow(width) && xorRow == BytesPerRow(width) * height + y * BytesPerRow(width)
    ensures forall i | 0 <= i < width ::
              Row(MonochromePicture(raw, width, height), width, y)[i] == MonochromeBits(raw, andRow, xorRow, i)
  {}

  method DecodeColorPointerShape(raw: seq<byte>, width: u32, height: u32, pitch: u32) returns (rgba: array<byte>)
    ensures fresh(rgba) && rgba.Length == height * width * 4
    ensures Pixels(rgba) == Picture(ColorPicture(raw, RowPitch(width, pitch)), width, height)
  {
    rgba := new byte[height * width * 4](_ => 0);
    ghost var n := height * width;
    var rowPitch := RowPitch(width, pitch);
    ghost var f := ColorPicture(raw, rowPitch);
    assert Pixels(rgba) == Blanks(n);
    for y := 0 to height
      invariant y * width <= n
      invariant Pixels(rgba) == Picture(f, width, y) + Blanks(n - y * width)
    {
      NonNegative(y, rowPitch);
      NonNegative(y, width);
      var srcRow: nat := y * rowPitch;
      var base: nat := y * width;
      var dstRow := base * 4;
      if srcRow >= |raw| {
        ColorBlankBelow(raw, rowPitch, width, y, height);
        break;
      }
      RowsBelow(width, y + 1, height);
      NextRow(width, y);
      ghost var before, row := Pixels(rgba), Row(f, width, y);
      ColorRow(raw, rowPitch, width, y, srcRow);
      DecodeColorRow(raw, srcRow, rgba, dstRow, width, base, row);
      RowDone(before, Pixels(rgba), Picture(f, width, y), row, base, width, n);
    }
  }

  method DecodeMonochromePointerShape(raw: seq<byte>, width: u32, height: u32, visible: bool) returns (rgba: array<byte>)
    ensures fresh(rgba) && rgba.Length == height * width * 4
    ensures Pixels(rgba) == if visible then Picture(MonochromePicture(raw, width, height), width, height)
                            else Blanks(height * width)
  {
    rgba := new byte[height * width * 4](_ => 0);
    ghost var n := height * width;
    assert Pixels(rgba) == Blanks(n);
    ghost var f := MonochromePicture(raw, width, height);
    if !visible || width == 0 || height == 0 {
      EmptyPicture(f, width, height);
      return;
    }
    var bytesPerRow := BytesPerRow(width);
    var xorPlaneStart := bytesPerRow * height;
    for y := 0 to height
      invariant y * width <= n
      invariant Pixels(rgba) == Picture(f, width, y) + Blanks(n - y * width)
    {
      NonNegative(y, bytesPerRow);
      NonNegative(y, width);
      var andRowStart: nat := y * bytesPerRow;
      var xorRowStart: nat := xorPlaneStart + y * bytesPerRow;
      var base: nat := y * width;
      RowsBelow(width, y + 1, height);
      NextRow(width, y);
      ghost var before, row := Pixels(rgba), Row(f, width, y);
      MonochromeRow(raw, width, height, y, andRowStart, xorRowStart);
      DecodeMonochromeRow(raw, andRowStart, xorRowStart, rgba, width, base, row);
      RowDone(before, Pixels(rgba), Picture(f, width, y), row, base, width, n);
    }
  }

  // ----- the bytes of a decoded shape, pixel by pixel

  function Pow2(n: nat): (p: nat)
    ensures p > 0
  {
    if n == 0 then 1 else 2 * Pow2(n - 1)
  }

  /** The four bytes of a pixel, at row y and column x. */
  lemma PixelBytes(rgba: array<byte>, f: (nat, nat) -> Rgba, width: nat, height: nat, y: nat, x: nat)
    requires rgba.Length == height * width * 4 && Pixels(rgba) == Picture(f, width, height)
    requires y < height && x < width
    ensures var at := (y * width + x) * 4;
            && 0 <= at && at + 4 <= rgba.Length
            && rgba[at] == f(y, x).r && rgba[at + 1] == f(y, x).g && rgba[at + 2] == f(y, x).b && rgba[at + 3] == f(y, x).a
  {
    NonNegative(y, width);
    PictureAt(f, width, height, y, x);
    assert Pixels(rgba)[y * width + x] == Pixel(rgba, y * width + x);
  }

  /**
   * A decoded colour shape, byte by byte, when its rows are at least as far apart as they are long:
   * the four bytes at y*pitch + 4x with red and blue exchanged, or zeros where they are not all there.
   */
  lemma ColorShapeBytes(rgba: array<byte>, raw: seq<byte>, width: u32, height: u32, pitch: u32, y: nat, x: nat)
    requires rgba.Length == height * width * 4
    requires Pixels(rgba) == Picture(ColorPicture(raw, RowPitch(width, pitch)), width, height)
    requires y < height && x < width && width * 4 <= pitch
    ensures var at, src := (y * width + x) * 4, y * pitch + 4 * x;
            && 0 <= at && at + 4 <= rgba.Length && 0 <= src
            && (src + 4 <= |raw| ==>
                  && rgba[at] == raw[src + 2] && rgba[at + 1] == raw[src + 1]
                  && rgba[at + 2] == raw[src] && rgba[at + 3] == raw[src + 3])
            && (src + 4 > |raw| ==> rgba[at] == 0 && rgba[at + 1] == 0 && rgba[at + 2] == 0 && rgba[at + 3] == 0)
  {
    NonNegative(y, pitch);
    PixelBytes(rgba, ColorPicture(raw, RowPitch(width, pitch)), width, height, y, x);
  }

  /** The same when the pitch is too small: the rows then follow each other without a gap. */
  lemma ColorShapeBytesTight(rgba: array<byte>, raw: seq<byte>, width: u32, height: u32, pitch: u32, y: nat, x: nat)
    requires rgba.Length == height * width * 4
    requires Pixels(rgba) == Picture(ColorPicture(raw, RowPitch(width, pitch)), width, height)
    requires y < height && x < width && pitch < width * 4 < 0x1_0000_0000
    ensures var at, src := (y * width + x) * 4, y * (width * 4) + 4 * x;
            && 0 <= at && at + 4 <= rgba.Length && 0 <= src
            && (src + 4 <= |raw| ==>
                  && rgba[at] == raw[src + 2] && rgba[at + 1] == raw[src + 1]
                  && rgba[at + 2] == raw[src] && rgba[at + 3] == raw[src + 3])
            && (src + 4 > |raw| ==> rgba[at] == 0 && rgba[at + 1] == 0 && rgba[at + 2] == 0 && rgba[at + 3] == 0)
  {
    NonNegative(y, width * 4);
    PixelBytes(rgba, ColorPicture(raw, RowPitch(width, pitch)), width, height, y, x);
  }

  /** Column x of a row of bits is bit 7 - x % 8 of byte x / 8; a missing byte reads as zero. */
  predicate BitAt(raw: seq<byte>, row: nat, x: nat) {
    row + x / 8 < |raw| && raw[row + x / 8] / Pow2(7 - x % 8) % 2 == 1
  }

  lemma BitPosition(raw: seq<byte>, row: nat, x: nat)
    ensures BitSet(raw, row, x) <==> BitAt(raw, row, x)
  {
    var k := x % 8;
    assert Pow2(0) == 1 && Pow2(1) == 2 && Pow2(2) == 4 && Pow2(3) == 8;
    assert Pow2(4) == 16 && Pow2(5) == 32 && Pow2(6) == 64 && Pow2(7) == 128;
    assert BitValue(k) == Pow2(7 - k);
  }

  /**
   * A decoded monochrome shape, byte by byte. The rows of each mask are the fewest whole bytes that
   * hold a row; AND and XOR bit decide between opaque black, opaque white and transparent.
   */
  lemma MonochromeShapeBytes(rgba: array<byte>, raw: seq<byte>, width: u32, height: u32, stride: nat, y: nat, x: nat)
    requires rgba.Length == height * width * 4
    requires Pixels(rgba) == Picture(MonochromePicture(raw, width, height), width, height)
    requires y < height && x < width && width <= stride * 8 < width + 8
    ensures var at := (y * width + x) * 4;
            var andSet, xorSet := BitAt(raw, y * stride, x), BitAt(raw, (height + y) * stride, x);
            && 0 <= at && at + 4 <= rgba.Length
            && rgba[at] == (if xorSet then 255 else 0) && rgba[at + 1] == rgba[at] && rgba[at + 2] == rgba[at]
            && rgba[at + 3] == (if andSet && !xorSet then 0 else 255)
  {
    assert stride == BytesPerRow(width);
    NonNegative(y, stride);
    NonNegative(stride, height);
    assert (height + y) * stride == stride * height + y * stride;
    BitPosition(raw, y * stride, x);
    BitPosition(raw, stride * height + y * stride, x);
    PixelBytes(rgba, MonochromePicture(raw, width, height), width, height, y, x);
  }

  /**
   * The XOR plane is looked for below height rows of AND mask, so a shape that ends there has no
   * white pixel: its XOR bits all read as missing.
   */
  lemma SinglePlaneNeverWhite(raw: seq<byte>, width: u32, height: u32, y: nat, x: nat)
    requires |raw| <= BytesPerRow(width) * height && y < height && x < width
    ensures y * width + x < height * width
    ensures Picture(MonochromePicture(raw, width, height), width, height)[y * width + x]
         == if BitSet(raw, y * BytesPerRow(width), x) then BLANK else BLACK
  {
    NonNegative(y, BytesPerRow(width));
    PictureAt(MonochromePicture(raw, width, height), width, height, y, x);
  }

  /** The first pixel is white as soon as the byte behind the AND plane is there with its first bit set. */
  lemma WhiteReached(raw: seq<byte>, width: u32, height: u32)
    requires |raw| > BytesPerRow(width) * height && forall i | 0 <= i < |raw| :: raw[i] == 255
    ensures MonochromePixel(raw, width, height, 0, 0) == WHITE
  {
    NonNegative(BytesPerRow(width), height);
    assert BitSet(raw, BytesPerRow(width) * height, 0);
  }

  /** A white pixel at row y and column x, in a shape of the given number of bytes. */
  predicate ShowsWhite(raw: seq<byte>, len: nat, width: u32, height: u32, y: nat, x: nat) {
    |raw| == len && y < height && x < width && MonochromePixel(raw, width, height, y, x) == WHITE
  }

  /**
   * Exactly which shapes can show a white pixel, an inverted one among them: those with at least
   * one byte more than height rows of AND mask.
   */
  lemma WhiteNeedsSecondPlane(len: nat, width: u32, height: u32)
    requires width > 0 && height > 0
    ensures (exists raw, y, x :: ShowsWhite(raw, len, width, height, y, x)) <==> len > BytesPerRow(width) * height
  {
    if raw, y, x :| ShowsWhite(raw, len, width, height, y, x) {
      if len <= BytesPerRow(width) * height {
        SinglePlaneNeverWhite(raw, width, height, y, x);
        PictureAt(MonochromePicture(raw, width, height), width, height, y, x);
        assert false;
      }
    }
    if len > BytesPerRow(width) * height {
      var raw: seq<byte> := seq(len, _ => 255);
      WhiteReached(raw, width, height);
      assert ShowsWhite(raw, len, width, height, 0, 0);
    }
  }
}
