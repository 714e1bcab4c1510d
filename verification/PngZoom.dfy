/**
 The magnified crop of the capture-zoom script: read a capture, check the crop, repeat every pixel
 `scale` times in both directions, write the result.  The reader may return a pixel buffer that is a
 few bytes short, and the crop may or may not reach what is missing.
 */
module PngZoom {
  import opened Options
  import opened Numbers
  import opened Bytes
  import opened PngRows
  import opened PngFile

  datatype Crop = Crop(x0: int, y0: int, w: int, h: int)

  predicate Inside(crop: Crop, image: Image) {
    && 0 <= crop.x0 && 0 <= crop.y0
    && crop.x0 + crop.w <= image.width && crop.y0 + crop.h <= image.height
  }

  predicate IsPixel(image: Image, x: int, y: int) { 0 <= x < image.width && 0 <= y < image.height }

  /** A crop that is not empty lies inside exactly if each of its pixels is one of the capture. */
  lemma InsidePixels(crop: Crop, image: Image)
    requires crop.w > 0 && crop.h > 0
    ensures Inside(crop, image) <==>
            forall x, y | crop.x0 <= x < crop.x0 + crop.w && crop.y0 <= y < crop.y0 + crop.h :: IsPixel(image, x, y)
  {
    if forall x, y | crop.x0 <= x < crop.x0 + crop.w && crop.y0 <= y < crop.y0 + crop.h :: IsPixel(image, x, y) {
      assert IsPixel(image, crop.x0, crop.y0) && IsPixel(image, crop.x0 + crop.w - 1, crop.y0 + crop.h - 1);
    }
  }

  predicate Legal(image: Image, crop: Crop, scale: nat) {
    Inside(crop, image) && crop.w >= 0 && crop.h >= 0 && scale > 0
  }

  function Full(image: Image): nat { image.height * (image.width * image.channels) }

  /** What the zoom script's reader returns: at most one pixel's bytes are missing, at the end. */
  predicate IsCapture(image: Image) {
    1 <= image.channels <= 4 && |image.pixels| <= Full(image) <= |image.pixels| + image.channels
  }

  predicate IsComplete(image: Image) { IsCapture(image) && |image.pixels| == Full(image) }

  /** The zoom script's reader lacks at most one pixel; the blackness script's lacks nothing. */
  lemma ReadIsCapture(z: Zlib, data: seq<Byte>)
    ensures ReadImage(Zoom, z, data).Some? ==> IsCapture(ReadImage(Zoom, z, data).value)
    ensures ReadImage(Zoom, z, data).Some? ==>
              (IsComplete(ReadImage(Zoom, z, data).value) <==> !CutOff(z, data))
    ensures ReadImage(Black, z, data).Some? ==> IsComplete(ReadImage(Black, z, data).value)
  {
    if ReadImage(Zoom, z, data).Some? {
      var s := StreamOf(z, data).value;
      var stride := s.width * s.channels;
      UnfilteredAccepts(Zoom, s.raw, 0, s.height, stride, s.channels, Zeros(stride));
      ZoomAccepts(s.raw, 0, s.height, stride, s.channels);
      UnfilteredSize(Zoom, s.raw, 0, s.height, stride, s.channels, Zeros(stride));
    }
    ReadersAgree(z, data);
  }

  // ---- Where a magnified byte comes from ------------------------------------------------------------

  lemma Shrunk(x: nat, w: nat, scale: nat)
    requires scale > 0 && x < w * scale
    ensures 0 <= x / scale < w
  {
    var q, r := x / scale, x % scale;
    assert x == q * scale + r;
    if w <= q {
      MulOrder(w, q, scale);
      assert false;
    }
  }

  /** The place of item `i` of group `g`, in groups of `n`. */
  lemma GroupIndex(g: nat, i: nat, groups: nat, n: nat)
    requires g < groups && i < n
    ensures 0 <= g * n + i < groups * n
  {
    MulOrder(g + 1, groups, n);
    assert (g + 1) * n == g * n + n;
  }

  lemma MulAssociates(a: int, b: int, c: int)
    ensures a * b * c == a * (b * c)
  {
  }

  /** How many bytes of a pixel the script looks at. */
  function Needed(channels: nat): nat { if channels >= 3 then 3 else 1 }

  function PixelIndex(image: Image, x: nat, y: nat): nat { (y * image.width + x) * image.channels }

  predicate Present(image: Image, x: nat, y: nat) {
    PixelIndex(image, x, y) + Needed(image.channels) <= |image.pixels|
  }

  /** The byte for colour `k` of the pixel at (x, y): a capture without colours repeats its grey. */
  function Sample(image: Image, x: nat, y: nat, k: nat): Byte
    requires Present(image, x, y) && k < 3
  {
    image.pixels[PixelIndex(image, x, y) + if image.channels >= 3 then k else 0]
  }

  /** The three bytes that the script takes for a pixel: a slice for colours, an item for greys. */
  function PixelAt(image: Image, x: nat, y: nat): Option<seq<Byte>> {
    var i := PixelIndex(image, x, y);
    if image.channels >= 3 then Some(Slice(image.pixels, i, 3))
    else if i >= |image.pixels| then None
    else Some([image.pixels[i], image.pixels[i], image.pixels[i]])
  }

  /** A pixel whose bytes are there gives three; a missing colour gives fewer and a missing grey is an error. */
  lemma PixelCases(image: Image, x: nat, y: nat)
    ensures Present(image, x, y) ==>
              PixelAt(image, x, y) == Some([Sample(image, x, y, 0), Sample(image, x, y, 1), Sample(image, x, y, 2)])
    ensures !Present(image, x, y) ==>
              if image.channels >= 3 then PixelAt(image, x, y).Some? && |PixelAt(image, x, y).value| < 3
              else PixelAt(image, x, y).None?
    ensures PixelAt(image, x, y).Some? ==> |PixelAt(image, x, y).value| <= 3
  {
    var i, p := PixelIndex(image, x, y), image.pixels;
    if Present(image, x, y) && image.channels >= 3 {
      assert p[i..i + 3] == [p[i], p[i + 1], p[i + 2]];
    }
  }

  /** The crop avoids the last pixel, or the bytes of it that count are there. */
  predicate Whole(image: Image, crop: Crop) {
    || crop.w == 0 || crop.h == 0
    || crop.x0 + crop.w < image.width || crop.y0 + crop.h < image.height
    || Full(image) + Needed(image.channels) <= |image.pixels| + image.channels
  }

  lemma LastIndex(image: Image)
    requires image.width > 0 && image.height > 0
    ensures PixelIndex(image, image.width - 1, image.height - 1) + image.channels == Full(image)
  {
    var w, h, c := image.width, image.height, image.channels;
    assert (h - 1) * w + (w - 1) == h * w - 1;
    assert (h * w - 1) * c + c == h * w * c;
    MulAssociates(h, w, c);
  }

  /** A pixel other than the last one ends a whole pixel earlier. */
  lemma EarlierIndex(image: Image, x: nat, y: nat)
    requires x < image.width && y < image.height && (x < image.width - 1 || y < image.height - 1)
    ensures PixelIndex(image, x, y) + 2 * image.channels <= Full(image)
  {
    var w, h, c := image.width, image.height, image.channels;
    GroupIndex(y, x, h, w);
    var i, last := y * w + x, h * w - 1;
    if i == last {
      SameGroup(y, x, h - 1, w - 1, w);
      assert false;
    }
    MulOrder(i + 2, h * w, c);
    assert (i + 2) * c == i * c + 2 * c;
    MulAssociates(h, w, c);
  }

  lemma SameGroup(y: nat, x: nat, b: nat, a: nat, w: nat)
    requires x < w && a < w && y * w + x == b * w + a
    ensures y == b && x == a
  {
    if y < b {
      GroupIndex(y, x, b, w);
      assert false;
    } else if b < y {
      GroupIndex(b, a, y, w);
      assert false;
    }
  }

  /** In a whole crop every pixel is there. */
  lemma AllPresent(image: Image, crop: Crop, x: nat, y: nat)
    requires IsCapture(image) && Inside(crop, image) && Whole(image, crop)
    requires crop.x0 <= x < crop.x0 + crop.w && crop.y0 <= y < crop.y0 + crop.h
    ensures Present(image, x, y)
  {
    LastIndex(image);
    if x < image.width - 1 || y < image.height - 1 {
      EarlierIndex(image, x, y);
    }
  }

  /** In a crop that is not whole the last pixel is missing. */
  lemma LastMissing(image: Image, crop: Crop)
    requires Inside(crop, image) && crop.w >= 0 && crop.h >= 0 && !Whole(image, crop)
    ensures image.width > 0 && image.height > 0
    ensures crop.x0 + crop.w == image.width && crop.y0 + crop.h == image.height && crop.w > 0 && crop.h > 0
    ensures !Present(image, image.width - 1, image.height - 1)
  {
    LastIndex(image);
  }

  // ---- The loops ------------------------------------------------------------------------------------

  /** The first `n` magnified pixels of a row, taken from row `sy` of the capture. */
  function RowTo(image: Image, crop: Crop, scale: nat, sy: nat, n: nat): Option<seq<Byte>>
    requires scale > 0 && crop.x0 >= 0
  {
    if n == 0 then Some([])
    else Join(RowTo(image, crop, scale, sy, n - 1), PixelAt(image, crop.x0 + (n - 1) / scale, sy))
  }

  function Join(row: Option<seq<Byte>>, pixel: Option<seq<Byte>>): Option<seq<Byte>> {
    if row.None? || pixel.None? then None else Some(row.value + pixel.value)
  }

  /** The magnified row `y`. */
  function RowOf(image: Image, crop: Crop, scale: nat, width: nat, y: nat): Option<seq<Byte>>
    requires scale > 0 && crop.x0 >= 0 && crop.y0 >= 0
  {
    RowTo(image, crop, scale, crop.y0 + y / scale, width)
  }

  /** The first `n` magnified rows. */
  function RowsTo(image: Image, crop: Crop, scale: nat, width: nat, n: nat): Option<seq<seq<Byte>>>
    requires scale > 0 && crop.x0 >= 0 && crop.y0 >= 0
  {
    if n == 0 then Some([])
    else
      var rows := RowsTo(image, crop, scale, width, n - 1);
      JoinRow(rows, RowOf(image, crop, scale, width, n - 1))
  }

  function JoinRow(rows: Option<seq<seq<Byte>>>, row: Option<seq<Byte>>): Option<seq<seq<Byte>>> {
    if rows.None? || row.None? then None else Some(rows.value + [row.value])
  }

  /** The inner loop: the bytes of one pixel after the other. */
  method MagnifyRow(image: Image, crop: Crop, scale: nat, width: nat, y: nat) returns (row: Option<seq<Byte>>)
    requires scale > 0 && crop.x0 >= 0 && crop.y0 >= 0
    ensures row == RowOf(image, crop, scale, width, y)
  {
    var sy := crop.y0 + y / scale;
    var so: seq<Byte> := [];
    for x := 0 to width
      invariant RowTo(image, crop, scale, sy, x) == Some(so)
    {
      var sx := crop.x0 + x / scale;
      var i := PixelIndex(image, sx, sy);
      if image.channels >= 3 {
        so := so + Slice(image.pixels, i, 3);
      } else {
        if i >= |image.pixels| {
          RowFails(image, crop, scale, sy, x + 1, width);
          return None;
        }
        so := so + [image.pixels[i], image.pixels[i], image.pixels[i]];
      }
    }
    row := Some(so);
  }

  lemma {:induction false} RowFails(image: Image, crop: Crop, scale: nat, sy: nat, n: nat, width: nat)
    requires scale > 0 && crop.x0 >= 0 && n <= width && RowTo(image, crop, scale, sy, n).None?
    ensures RowTo(image, crop, scale, sy, width).None?
    decreases width
  {
    if n < width {
      RowFails(image, crop, scale, sy, n, width - 1);
    }
  }

  lemma {:induction false} RowsFail(image: Image, crop: Crop, scale: nat, width: nat, n: nat, height: nat)
    requires scale > 0 && crop.x0 >= 0 && crop.y0 >= 0 && n <= height && RowsTo(image, crop, scale, width, n).None?
    ensures RowsTo(image, crop, scale, width, height).None?
    decreases height
  {
    if n < height {
      RowsFail(image, crop, scale, width, n, height - 1);
    }
  }

  lemma {:induction false} RowsNext(image: Image, crop: Crop, scale: nat, width: nat, y: nat, row: Option<seq<Byte>>)
    requires scale > 0 && crop.x0 >= 0 && crop.y0 >= 0
    requires row == RowOf(image, crop, scale, width, y)
    ensures RowsTo(image, crop, scale, width, y + 1) == JoinRow(RowsTo(image, crop, scale, width, y), row)
  {
  }

  /** The crop and magnify loops. */
  method Magnify(image: Image, crop: Crop, scale: nat, width: nat, height: nat) returns (rows: Option<seq<seq<Byte>>>)
    requires scale > 0 && crop.x0 >= 0 && crop.y0 >= 0
    ensures rows == RowsTo(image, crop, scale, width, height)
  {
    var so: seq<seq<Byte>> := [];
    for y := 0 to height
      invariant RowsTo(image, crop, scale, width, y) == Some(so)
    {
      var row := MagnifyRow(image, crop, scale, width, y);
      RowsNext(image, crop, scale, width, y, row);
      if row.None? {
        RowsFail(image, crop, scale, width, y + 1, height);
        return None;
      }
      so := so + [row.value];
    }
    rows := Some(so);
  }

  // ---- Whole crops ----------------------------------------------------------------------------------

  /** The pixel of the capture that stands at (x, y) of the magnified crop. */
  ghost predicate SourceThere(image: Image, crop: Crop, scale: nat, x: nat, y: nat) {
    scale > 0 && crop.x0 >= 0 && crop.y0 >= 0 && Present(image, crop.x0 + x / scale, crop.y0 + y / scale)
  }

  function Magnified(image: Image, crop: Crop, scale: nat, x: nat, y: nat, k: nat): Byte
    requires SourceThere(image, crop, scale, x, y) && k < 3
  {
    Sample(image, crop.x0 + x / scale, crop.y0 + y / scale, k)
  }

  lemma SourceIsThere(image: Image, crop: Crop, scale: nat, x: nat, y: nat)
    requires IsCapture(image) && Legal(image, crop, scale) && Whole(image, crop)
    requires x < crop.w * scale && y < crop.h * scale
    ensures SourceThere(image, crop, scale, x, y)
  {
    Shrunk(x, crop.w, scale);
    Shrunk(y, crop.h, scale);
    AllPresent(image, crop, crop.x0 + x / scale, crop.y0 + y / scale);
  }

  /** Byte `i` of a row of bytes is colour `i % 3` of the pixel under it. */
  ghost predicate IsRow(image: Image, crop: Crop, scale: nat, y: nat, row: seq<Byte>, n: nat) {
    && |row| == n * 3
    && forall i | 0 <= i < |row| ::
         SourceThere(image, crop, scale, i / 3, y) && row[i] == Magnified(image, crop, scale, i / 3, y, i % 3)
  }

  lemma {:induction false} WholeRow(image: Image, crop: Crop, scale: nat, y: nat, n: nat)
    requires IsCapture(image) && Legal(image, crop, scale) && Whole(image, crop)
    requires y < crop.h * scale && n <= crop.w * scale
    ensures var row := RowTo(image, crop, scale, crop.y0 + y / scale, n);
            row.Some? && IsRow(image, crop, scale, y, row.value, n)
    decreases n
  {
    if n > 0 {
      WholeRow(image, crop, scale, y, n - 1);
      var row := RowTo(image, crop, scale, crop.y0 + y / scale, n - 1).value;
      var pixel := WholePixel(image, crop, scale, n - 1, y);
      RowGrows(image, crop, scale, y, row, n - 1, pixel);
    }
  }

  lemma WholePixel(image: Image, crop: Crop, scale: nat, x: nat, y: nat) returns (pixel: seq<Byte>)
    requires IsCapture(image) && Legal(image, crop, scale) && Whole(image, crop)
    requires x < crop.w * scale && y < crop.h * scale
    ensures PixelAt(image, crop.x0 + x / scale, crop.y0 + y / scale) == Some(pixel)
    ensures SourceThere(image, crop, scale, x, y)
    ensures |pixel| == 3 && forall k | 0 <= k < 3 :: pixel[k] == Magnified(image, crop, scale, x, y, k)
  {
    var sx, sy := crop.x0 + x / scale, crop.y0 + y / scale;
    SourceIsThere(image, crop, scale, x, y);
    PixelCases(image, sx, sy);
    pixel := [Sample(image, sx, sy, 0), Sample(image, sx, sy, 1), Sample(image, sx, sy, 2)];
  }

  lemma RowGrows(image: Image, crop: Crop, scale: nat, y: nat, row: seq<Byte>, x: nat, pixel: seq<Byte>)
    requires IsRow(image, crop, scale, y, row, x) && SourceThere(image, crop, scale, x, y)
    requires |pixel| == 3 && forall k | 0 <= k < 3 :: pixel[k] == Magnified(image, crop, scale, x, y, k)
    ensures IsRow(image, crop, scale, y, row + pixel, x + 1)
  {
    forall i | 0 <= i < |row + pixel|
      ensures SourceThere(image, crop, scale, i / 3, y)
      ensures (row + pixel)[i] == Magnified(image, crop, scale, i / 3, y, i % 3)
    {
      if i >= |row| {
        assert i / 3 == x && i % 3 == i - |row|;
      }
    }
  }

  ghost predicate AreRows(image: Image, crop: Crop, scale: nat, rows: seq<seq<Byte>>, width: nat) {
    forall y | 0 <= y < |rows| :: IsRow(image, crop, scale, y, rows[y], width)
  }

  lemma {:induction false} WholeRows(image: Image, crop: Crop, scale: nat, width: nat, n: nat)
    requires IsCapture(image) && Legal(image, crop, scale) && Whole(image, crop)
    requires width == crop.w * scale && n <= crop.h * scale
    ensures var rows := RowsTo(image, crop, scale, width, n);
            rows.Some? && |rows.value| == n && AreRows(image, crop, scale, rows.value, width)
    decreases n
  {
    if n > 0 {
      WholeRows(image, crop, scale, width, n - 1);
      WholeRow(image, crop, scale, n - 1, width);
    }
  }

  // ---- Crops that are not whole ---------------------------------------------------------------------

  lemma {:induction false} RowLength(image: Image, crop: Crop, scale: nat, sy: nat, n: nat)
    requires scale > 0 && crop.x0 >= 0
    ensures image.channels >= 3 ==> RowTo(image, crop, scale, sy, n).Some?
    ensures RowTo(image, crop, scale, sy, n).Some? ==> |RowTo(image, crop, scale, sy, n).value| <= 3 * n
    decreases n
  {
    if n > 0 {
      RowLength(image, crop, scale, sy, n - 1);
      PixelCases(image, crop.x0 + (n - 1) / scale, sy);
    }
  }

  lemma LastShrunk(w: nat, scale: nat)
    requires w > 0 && scale > 0
    ensures w * scale >= 1 && (w * scale - 1) / scale == w - 1
  {
    MulOrder(1, w, scale);
    var x := w * scale - 1;
    assert x == (w - 1) * scale + (scale - 1);
    Shrunk(x, w, scale);
    var q, r := x / scale, x % scale;
    assert x == q * scale + r;
    if q < w - 1 {
      MulOrder(q + 1, w - 1, scale);
      assert false;
    }
  }

  /** The row that reaches the missing pixel fails for greys and comes out short for colours. */
  lemma LastRowShort(image: Image, crop: Crop, scale: nat, width: nat)
    requires Legal(image, crop, scale) && !Whole(image, crop) && width == crop.w * scale
    ensures image.height > 0 && width > 0
    ensures var row := RowTo(image, crop, scale, image.height - 1, width);
            if image.channels >= 3 then row.Some? && |row.value| < 3 * width else row.None?
  {
    LastMissing(image, crop);
    LastShrunk(crop.w, scale);
    RowLength(image, crop, scale, image.height - 1, width - 1);
    PixelCases(image, image.width - 1, image.height - 1);
  }

  lemma {:induction false} RowOfLength(image: Image, crop: Crop, scale: nat, width: nat, y: nat)
    requires scale > 0 && crop.x0 >= 0 && crop.y0 >= 0 && image.channels >= 3
    ensures var row := RowOf(image, crop, scale, width, y); row.Some? && |row.value| <= 3 * width
  {
    RowLength(image, crop, scale, crop.y0 + y / scale, width);
  }

  lemma {:induction false} RowsLength(image: Image, crop: Crop, scale: nat, width: nat, n: nat)
    requires scale > 0 && crop.x0 >= 0 && crop.y0 >= 0 && image.channels >= 3
    ensures var rows := RowsTo(image, crop, scale, width, n);
            rows.Some? && |rows.value| == n && forall y | 0 <= y < n :: |rows.value[y]| <= 3 * width
    decreases n
  {
    if n > 0 {
      RowsLength(image, crop, scale, width, n - 1);
      RowOfLength(image, crop, scale, width, n - 1);
    }
  }

  /** Without its last pixel a crop of greys fails, and a crop of colours has a last row that is short. */
  lemma BrokenRows(image: Image, crop: Crop, scale: nat, width: nat, height: nat)
    requires Legal(image, crop, scale) && !Whole(image, crop) && width == crop.w * scale && height == crop.h * scale
    ensures var rows := RowsTo(image, crop, scale, width, height);
            if image.channels < 3 then rows.None?
            else
              && rows.Some? && |rows.value| == height > 0 && |rows.value[height - 1]| < 3 * width
              && forall y | 0 <= y < height :: |rows.value[y]| <= 3 * width
  {
    LastMissing(image, crop);
    LastShrunk(crop.h, scale);
    LastRowShort(image, crop, scale, width);
    if image.channels >= 3 {
      RowsLength(image, crop, scale, width, height);
      RowsLength(image, crop, scale, width, height - 1);
    }
  }

  /** Rows of which one is short make a stream that is short. */
  lemma {:induction false} PlainShort(rows: seq<seq<Byte>>, stride: nat)
    requires rows != [] && |rows[|rows| - 1]| < stride && forall y | 0 <= y < |rows| :: |rows[y]| <= stride
    ensures |Plain(rows)| < |rows| * (stride + 1)
  {
    if |rows| > 1 {
      PlainShort(rows[1..], stride);
      assert |rows| * (stride + 1) == (|rows| - 1) * (stride + 1) + (stride + 1);
    } else {
      assert Plain(rows[1..]) == [];
    }
  }

  /** A file written from such rows is never read as a complete image. */
  lemma BrokenFile(script: Script, z: Zlib, crc: seq<Byte> -> nat, rows: seq<seq<Byte>>, width: nat)
    requires Faithful(z) && WriteImage(z, crc, rows, width, |rows|).Some?
    requires rows != [] && |rows[|rows| - 1]| < 3 * width && forall y | 0 <= y < |rows| :: |rows[y]| <= 3 * width
    ensures var back := ReadImage(script, z, WriteImage(z, crc, rows, width, |rows|).value);
            back.Some? ==> |back.value.pixels| < |rows| * (width * 3)
  {
    WrittenStream(z, crc, rows, width, |rows|);
    var raw, n, stride := Plain(rows), |rows|, width * 3;
    PlainShort(rows, stride);
    assert n * (stride + 1) == (n - 1) * (stride + 1) + (stride + 1);
    if Unfiltered(script, raw, 0, n, stride, 3, Zeros(stride)).Some? {
      UnfilteredSize(script, raw, 0, n, stride, 3, Zeros(stride));
    }
  }

  // ---- The whole script -----------------------------------------------------------------------------

  /** The sizes fit the four bytes that the file has for them. */
  predicate Writable(z: Zlib, rows: seq<seq<Byte>>, width: nat) {
    width < TWO32 && |rows| < TWO32 && |z.compress(Plain(rows))| < TWO32
  }

  /** Both readers find, at every (x, y), the capture's pixel at (x0 + x / scale, y0 + y / scale). */
  ghost predicate ReadsBack(z: Zlib, image: Image, crop: Crop, scale: nat, file: seq<Byte>) {
    && ReadImage(Zoom, z, file).Some? && ReadImage(Black, z, file) == ReadImage(Zoom, z, file)
    && var back := ReadImage(Zoom, z, file).value;
       && IsComplete(back)
       && back.width == crop.w * scale && back.height == crop.h * scale && back.channels == 3
       && forall x: nat, y: nat, k: nat | x < back.width && y < back.height && k < 3 ::
            && Present(back, x, y) && SourceThere(image, crop, scale, x, y)
            && Sample(back, x, y, k) == Magnified(image, crop, scale, x, y, k)
  }

  lemma RowIndex(width: nat, n: nat, x: nat, y: nat, k: nat)
    ensures (y * width + x) * n + k == y * (width * n) + (x * n + k)
  {
    MulAssociates(y, width, n);
  }

  /** Pixel (x, y) of a buffer made of whole rows: in row `y`, behind `x` pixels; greys stand for all colours. */
  lemma {:induction false} SampleOfRows(rows: seq<seq<Byte>>, width: nat, n: nat, x: nat, y: nat, k: nat)
    requires n > 0 && IsImage(rows, width * n) && x < width && y < |rows| && k < 3
    ensures Present(Image(width, |rows|, n, Flatten(rows)), x, y)
    ensures var i := x * n + if n < 3 then 0 else k;
            i < |rows[y]| && Sample(Image(width, |rows|, n, Flatten(rows)), x, y, k) == rows[y][i]
  {
    var last, i := if n < 3 then 0 else 2, if n < 3 then 0 else k;
    GroupIndex(x, last, width, n);
    GroupIndex(x, i, width, n);
    RowIndex(width, n, x, y, last);
    FlattenAt(rows, width * n, y, x * n + last);
    RowIndex(width, n, x, y, i);
    FlattenAt(rows, width * n, y, x * n + i);
  }

  lemma RowsAreComplete(rows: seq<seq<Byte>>, width: nat)
    requires IsImage(rows, width * 3)
    ensures IsComplete(Image(width, |rows|, 3, Flatten(rows)))
  {
    FlattenLength(rows, width * 3);
  }

  lemma RowsAreImage(image: Image, crop: Crop, scale: nat, rows: seq<seq<Byte>>, width: nat)
    requires AreRows(image, crop, scale, rows, width)
    ensures IsImage(rows, width * 3)
  {
    forall y | 0 <= y < |rows| ensures |rows[y]| == width * 3 {
      assert IsRow(image, crop, scale, y, rows[y], width);
    }
  }

  lemma {:induction false} BackSample(image: Image, crop: Crop, scale: nat, rows: seq<seq<Byte>>, width: nat, x: nat,
      y: nat, k: nat)
    requires AreRows(image, crop, scale, rows, width) && x < width && y < |rows| && k < 3
    ensures var back := Image(width, |rows|, 3, Flatten(rows));
            && Present(back, x, y) && SourceThere(image, crop, scale, x, y)
            && Sample(back, x, y, k) == Magnified(image, crop, scale, x, y, k)
  {
    RowsAreImage(image, crop, scale, rows, width);
    SampleOfRows(rows, width, 3, x, y, k);
    assert IsRow(image, crop, scale, y, rows[y], width);
    assert (x * 3 + k) / 3 == x && (x * 3 + k) % 3 == k;
  }

  /** Reading back a written whole crop gives every magnified pixel. */
  lemma {:induction false} ZoomReadBack(z: Zlib, crc: seq<Byte> -> nat, image: Image, crop: Crop, scale: nat,
                                        rows: seq<seq<Byte>>, width: nat)
    requires Faithful(z) && Writable(z, rows, width) && AreRows(image, crop, scale, rows, width)
    requires width == crop.w * scale && |rows| == crop.h * scale
    ensures WriteImage(z, crc, rows, width, |rows|).Some?
    ensures ReadsBack(z, image, crop, scale, WriteImage(z, crc, rows, width, |rows|).value)
  {
    RowsAreImage(image, crop, scale, rows, width);
    WrittenIsRead(Zoom, z, crc, rows, width);
    WrittenIsRead(Black, z, crc, rows, width);
    RowsAreComplete(rows, width);
    forall x: nat, y: nat, k: nat | x < width && y < |rows| && k < 3
      ensures var back := Image(width, |rows|, 3, Flatten(rows));
              && Present(back, x, y) && SourceThere(image, crop, scale, x, y)
              && Sample(back, x, y, k) == Magnified(image, crop, scale, x, y, k)
    {
      BackSample(image, crop, scale, rows, width, x, y, k);
    }
  }

  lemma Grows(n: nat, scale: nat)
    ensures 0 <= n * scale
  {
  }

  datatype Outcome = Unreadable | Outside | Failed | Unwritable | Wrote(file: seq<Byte>)

  /** A legal crop of a capture: what is written reads back if and only if the crop is whole. */
  ghost predicate Answers(z: Zlib, image: Image, crop: Crop, scale: nat, out: Outcome) {
    && (out.Failed? <==> !Whole(image, crop) && image.channels < 3)
    && (out.Wrote? ==> (ReadsBack(z, image, crop, scale, out.file) <==> Whole(image, crop)))
    && (out.Unwritable? ==>
          exists rows: seq<seq<Byte>>, width: nat ::
            && scale > 0 && crop.x0 >= 0 && crop.y0 >= 0 && width == crop.w * scale && 0 <= crop.h * scale
            && RowsTo(image, crop, scale, width, crop.h * scale) == Some(rows) && !Writable(z, rows, width))
    && (out.Failed? || out.Wrote? || out.Unwritable?)
  }

  lemma BrokenAnswer(z: Zlib, crc: seq<Byte> -> nat, image: Image, crop: Crop, scale: nat, rows: seq<seq<Byte>>,
                     width: nat)
    requires Faithful(z) && WriteImage(z, crc, rows, width, |rows|).Some?
    requires width == crop.w * scale && |rows| == crop.h * scale
    requires rows != [] && |rows[|rows| - 1]| < 3 * width && forall y | 0 <= y < |rows| :: |rows[y]| <= 3 * width
    ensures !ReadsBack(z, image, crop, scale, WriteImage(z, crc, rows, width, |rows|).value)
  {
    BrokenFile(Zoom, z, crc, rows, width);
  }

  /**
   The crop, once the capture has been read: it fails for greys and writes a broken file for colours
   when it reaches a missing pixel, and otherwise writes a file that reads back.
   */
  method WriteCrop(z: Zlib, crc: seq<Byte> -> nat, image: Image, crop: Crop, scale: nat) returns (out: Outcome)
    requires Faithful(z) && IsCapture(image) && Legal(image, crop, scale)
    ensures Answers(z, image, crop, scale, out)
  {
    Grows(crop.w, scale);
    Grows(crop.h, scale);
    var width, height := crop.w * scale, crop.h * scale;
    var rows := Magnify(image, crop, scale, width, height);
    if Whole(image, crop) {
      WholeRows(image, crop, scale, width, height);
    } else {
      BrokenRows(image, crop, scale, width, height);
    }
    if rows.None? {
      return Failed;
    }
    var file := WriteImage(z, crc, rows.value, width, height);
    if file.None? {
      assert RowsTo(image, crop, scale, width, crop.h * scale) == Some(rows.value) && !Writable(z, rows.value, width);
      return Unwritable;
    }
    if Whole(image, crop) {
      ZoomReadBack(z, crc, image, crop, scale, rows.value, width);
    } else {
      BrokenAnswer(z, crc, image, crop, scale, rows.value, width);
    }
    out := Wrote(file.value);
  }

  /** `capture-zoom --out`: a negative size that is not outside cannot be written. */
  method ZoomFile(z: Zlib, crc: seq<Byte> -> nat, data: seq<Byte>, crop: Crop, scale: nat) returns (out: Outcome)
    requires Faithful(z) && scale >= 1
    ensures out.Unreadable? <==> ReadImage(Zoom, z, data).None?
    ensures out.Outside? <==> ReadImage(Zoom, z, data).Some? && !Inside(crop, ReadImage(Zoom, z, data).value)
    ensures ReadImage(Zoom, z, data).Some? && Inside(crop, ReadImage(Zoom, z, data).value) ==>
              if crop.w < 0 || crop.h < 0 then out.Unwritable?
              else Answers(z, ReadImage(Zoom, z, data).value, crop, scale, out)
  {
    var image := ReadPngZoom(z, data);
    if image.None? {
      return Unreadable;
    }
    if !Inside(crop, image.value) {
      return Outside;
    }
    if crop.w < 0 || crop.h < 0 {
      return Unwritable;
    }
    ReadIsCapture(z, data);
    out := WriteCrop(z, crc, image.value, crop, scale);
  }
}
