/**
 PNG files as the capture scripts read and write them (chunk layout of section 5.3 of the PNG
 specification), and the magnified crop.  Compression and checksums are parameters.
 */
module PngFile {
  import opened Options
  import opened Numbers
  import opened Bytes
  import opened PngRows

  datatype Image = Image(width: nat, height: nat, channels: nat, pixels: seq<Byte>)

  /** The foreign compressor; decompression fails on what is no compressed stream. */
  datatype Zlib = Zlib(compress: seq<Byte> -> seq<Byte>, decompress: seq<Byte> -> Option<seq<Byte>>)

  ghost predicate Faithful(z: Zlib) {
    forall x: seq<Byte> :: z.decompress(z.compress(x)) == Some(x)
  }

  const SIGNATURE: seq<Byte> := [137, 80, 78, 71, 13, 10, 26, 10]
  const IHDR: seq<Byte> := [73, 72, 68, 82]
  const IDAT: seq<Byte> := [73, 68, 65, 84]
  const IEND: seq<Byte> := [73, 69, 78, 68]
  const TWO32: int := 0x1_0000_0000

  /** Four bytes, most significant first. */
  function ToBig(n: nat): (s: seq<Byte>)
    ensures |s| == 4
  {
    [n / 16777216 % 256, n / 65536 % 256, n / 256 % 256, n % 256]
  }

  function FromBig(s: seq<Byte>): nat
    requires |s| == 4
  {
    var a: int, b: int, c: int := s[0], s[1], s[2];
    a * 16777216 + b * 65536 + c * 256 + s[3]
  }

  lemma BigRoundTrip(n: nat)
    requires n < TWO32
    ensures FromBig(ToBig(n)) == n
  {
    assert n / 256 == 256 * (n / 65536) + n / 256 % 256;
    assert n / 65536 == 256 * (n / 16777216) + n / 65536 % 256;
  }

  // ---- Reading --------------------------------------------------------------------------------------

  datatype Header = Header(width: nat, height: nat, depth: int, colour: int, interlace: int)

  function HeaderOf(body: seq<Byte>): Header
    requires |body| == 13
  {
    Header(FromBig(body[..4]), FromBig(body[4..8]), body[8], body[9], body[12])
  }

  datatype Content = Content(header: Option<Header>, idat: seq<Byte>)

  /** The chunks of a file: the last header, all image data in order; a header of the wrong size is an error. */
  function Chunks(d: seq<Byte>, so: Content): Option<Content>
    decreases |d|
  {
    if |d| < 8 then Some(so)
    else
      var length, kind := FromBig(d[..4]), d[4..8];
      var body := d[8..Min(8 + length, |d|)];
      var rest := d[Min(12 + length, |d|)..];
      if kind == IHDR then
        if |body| != 13 then None else Chunks(rest, so.(header := Some(HeaderOf(body))))
      else if kind == IDAT then Chunks(rest, so.(idat := so.idat + body))
      else if kind == IEND then Some(so)
      else Chunks(rest, so)
  }

  function ChannelsOf(colour: int): (channels: Option<nat>)
    ensures channels.Some? ==> 1 <= channels.value <= 4
  {
    if colour == 0 || colour == 3 then Some(1)
    else if colour == 2 then Some(3)
    else if colour == 4 then Some(2)
    else if colour == 6 then Some(4)
    else None
  }

  /** The size, the channels and the filtered rows of a file. */
  datatype Stream = Stream(width: nat, height: nat, channels: nat, raw: seq<Byte>)

  /** What the scripts go on with, when the header is one that they support. */
  function Accepted(z: Zlib, content: Option<Content>): (s: Option<Stream>)
    ensures s.Some? ==> 1 <= s.value.channels <= 4
  {
    if content.None? || content.value.header.None? then None
    else
      var h := content.value.header.value;
      if h.depth != 8 || h.interlace != 0 || ChannelsOf(h.colour).None? then None
      else match z.decompress(content.value.idat)
        case None => None
        case Some(raw) => Some(Stream(h.width, h.height, ChannelsOf(h.colour).value, raw))
  }

  function StreamOf(z: Zlib, data: seq<Byte>): (s: Option<Stream>)
    ensures s.Some? ==> 1 <= s.value.channels <= 4
  {
    if |data| < 8 || data[..8] != SIGNATURE then None else Accepted(z, Chunks(data[8..], Content(None, [])))
  }

  /** The image that a script makes of a stream. */
  function ImageOf(script: Script, s: Stream): Option<Image>
    requires s.channels > 0
  {
    var stride := s.width * s.channels;
    match Unfiltered(script, s.raw, 0, s.height, stride, s.channels, Zeros(stride))
    case None => None
    case Some(rows) => Some(Image(s.width, s.height, s.channels, Flatten(rows)))
  }

  function ReadImage(script: Script, z: Zlib, data: seq<Byte>): Option<Image> {
    match StreamOf(z, data)
    case None => None
    case Some(s) => ImageOf(script, s)
  }

  /** What one chunk adds to the content read so far, before the rest of the file. */
  function AfterChunk(kind: seq<Byte>, body: seq<Byte>, rest: seq<Byte>, so: Content): Option<Content>
  {
    if kind == IHDR then
      if |body| != 13 then None else Chunks(rest, so.(header := Some(HeaderOf(body))))
    else if kind == IDAT then Chunks(rest, so.(idat := so.idat + body))
    else if kind == IEND then Some(so)
    else Chunks(rest, so)
  }

  /** One chunk of a file, read at its offset. */
  lemma ChunkStep(data: seq<Byte>, pos: nat, length: nat, body: seq<Byte>, so: Content)
    requires pos + 8 <= |data| && length == FromBig(data[pos..pos + 4])
    requires body == data[pos + 8..Min(pos + 8 + length, |data|)]
    ensures Chunks(data[pos..], so) ==
            AfterChunk(data[pos + 4..pos + 8], body, data[Min(pos + 12 + length, |data|)..], so)
  {
    var d := data[pos..];
    assert d[..4] == data[pos..pos + 4];
    assert d[4..8] == data[pos + 4..pos + 8];
    assert d[8..Min(8 + length, |d|)] == body;
    assert d[Min(12 + length, |d|)..] == data[Min(pos + 12 + length, |data|)..];
  }

  /** The chunks from `pos` on, behind what has been read so far, make up `goal`. */
  ghost predicate Reading(goal: Option<Content>, data: seq<Byte>, pos: nat, so: Content) {
    goal == Chunks(data[Min(pos, |data|)..], so)
  }

  /** What a chunk that is neither the last nor damaged adds. */
  function Absorbed(kind: seq<Byte>, body: seq<Byte>, so: Content): Content {
    if kind == IHDR && |body| == 13 then so.(header := Some(HeaderOf(body)))
    else if kind == IDAT then so.(idat := so.idat + body)
    else so
  }

  lemma ReadingNext(goal: Option<Content>, data: seq<Byte>, pos: nat, length: nat, body: seq<Byte>, so: Content)
    requires Reading(goal, data, pos, so)
    requires pos + 8 <= |data| && length == FromBig(data[pos..pos + 4])
    requires body == data[pos + 8..Min(pos + 8 + length, |data|)]
    ensures var kind := data[pos + 4..pos + 8];
            if kind == IHDR && |body| != 13 then goal == None
            else if kind == IEND then goal == Some(so)
            else Reading(goal, data, pos + 12 + length, Absorbed(kind, body, so))
  {
    ChunkStep(data, pos, length, body, so);
  }

  method ReadChunks(data: seq<Byte>) returns (content: Option<Content>)
    requires |data| >= 8
    ensures content == Chunks(data[8..], Content(None, []))
  {
    var pos := 8;
    var so := Content(None, []);
    ghost var goal := Chunks(data[8..], so);
    while pos + 8 <= |data|
      invariant 8 <= pos && Reading(goal, data, pos, so)
      decreases |data| - pos
    {
      var length, kind := FromBig(data[pos..pos + 4]), data[pos + 4..pos + 8];
      var body := data[pos + 8..Min(pos + 8 + length, |data|)];
      ReadingNext(goal, data, pos, length, body, so);
      pos := pos + 12 + length;
      if kind == IHDR {
        if |body| != 13 {
          return None;
        }
        so := so.(header := Some(HeaderOf(body)));
      } else if kind == IDAT {
        so := so.(idat := so.idat + body);
      } else if kind == IEND {
        return Some(so);
      }
    }
    content := Some(so);
  }

  /** The container half of both scripts, which is the same text. */
  method ReadStream(z: Zlib, data: seq<Byte>) returns (s: Option<Stream>)
    ensures s == StreamOf(z, data)
  {
    if |data| < 8 || data[..8] != SIGNATURE {
      return None;
    }
    var content := ReadChunks(data);
    s := Accepted(z, content);
  }

  /** The zoom script's reader. */
  method ReadPngZoom(z: Zlib, data: seq<Byte>) returns (image: Option<Image>)
    ensures image == ReadImage(Zoom, z, data)
  {
    var s := ReadStream(z, data);
    if s.None? {
      return None;
    }
    var Stream(width, height, channels, raw) := s.value;
    var pixels := ReadRowsZoom(raw, height, width * channels, channels);
    image := if pixels.None? then None else Some(Image(width, height, channels, pixels.value));
  }

  /** The blackness script's reader. */
  method ReadPngBlack(z: Zlib, data: seq<Byte>) returns (image: Option<Image>)
    ensures image == ReadImage(Black, z, data)
  {
    var s := ReadStream(z, data);
    if s.None? {
      return None;
    }
    var Stream(width, height, channels, raw) := s.value;
    var pixels := ReadRowsBlack(raw, height, width * channels, channels);
    image := if pixels.None? then None else Some(Image(width, height, channels, pixels.value));
  }

  // ---- Where the two readers agree ------------------------------------------------------------------

  /** The image data ends inside the last row, which the zoom script does not notice. */
  predicate CutOff(z: Zlib, data: seq<Byte>) {
    && StreamOf(z, data).Some?
    && var s := StreamOf(z, data).value;
       ShortTail(s.raw, 0, s.height, s.width * s.channels, s.channels)
  }

  /**
   The two readers return the same image on every file that both accept; one accepts more, exactly
   the cut off ones.
   */
  lemma ReadersAgree(z: Zlib, data: seq<Byte>)
    ensures ReadImage(Black, z, data).Some? ==> ReadImage(Zoom, z, data) == ReadImage(Black, z, data)
    ensures ReadImage(Zoom, z, data).Some? && ReadImage(Black, z, data).None? <==> CutOff(z, data)
  {
    if StreamOf(z, data).Some? {
      var s := StreamOf(z, data).value;
      var stride := s.width * s.channels;
      OnlyZoomAccepts(s.raw, s.height, stride, s.channels);
      if ReadImage(Black, z, data).Some? {
        SameRows(s.raw, 0, s.height, stride, s.channels, Zeros(stride));
      }
    }
  }

  /** One grey pixel whose data is only a filter type. */
  lemma CutOffExample()
    ensures ImageOf(Zoom, Stream(1, 1, 1, [0])) == Some(Image(1, 1, 1, []))
    ensures ImageOf(Black, Stream(1, 1, 1, [0])) == None
  {
    ShortTailExample();
    var row: seq<Byte> := [];
    assert Flatten([row]) == [];
  }

  // ---- Writing --------------------------------------------------------------------------------------

  function Chunk(crc: seq<Byte> -> nat, kind: seq<Byte>, body: seq<Byte>): seq<Byte> {
    ToBig(|body|) + kind + body + ToBig(crc(kind + body))
  }

  /** Every row behind a zero, the filter type that changes nothing. */
  function Plain(rows: seq<seq<Byte>>): seq<Byte> {
    if rows == [] then [] else [0] + rows[0] + Plain(rows[1..])
  }

  /** The written file; packing a size that does not fit four bytes is an error. */
  function WriteImage(z: Zlib, crc: seq<Byte> -> nat, rows: seq<seq<Byte>>, width: nat,
      height: nat): Option<seq<Byte>> {
    var packed := z.compress(Plain(rows));
    if width >= TWO32 || height >= TWO32 || |packed| >= TWO32 then None
    else
      Some(SIGNATURE + Written(crc, packed, width, height))
  }

  lemma ChunkRead(crc: seq<Byte> -> nat, kind: seq<Byte>, body: seq<Byte>, rest: seq<Byte>, so: Content)
    requires |kind| == 4 && |body| < TWO32
    ensures Chunks(Chunk(crc, kind, body) + rest, so) == AfterChunk(kind, body, rest, so)
  {
    var d := Chunk(crc, kind, body) + rest;
    BigRoundTrip(|body|);
    var n := |body|;
    assert |d| == 12 + n + |rest|;
    assert d[..4] == ToBig(n) && d[4..8] == kind && d[8..8 + n] == body && d[12 + n..] == rest;
  }

  lemma HeaderRead(width: nat, height: nat)
    requires width < TWO32 && height < TWO32
    ensures var head := ToBig(width) + ToBig(height) + [8, 2, 0, 0, 0];
            |head| == 13 && HeaderOf(head) == Header(width, height, 8, 2, 0)
  {
    var head := ToBig(width) + ToBig(height) + [8, 2, 0, 0, 0];
    BigRoundTrip(width);
    BigRoundTrip(height);
    assert head[..4] == ToBig(width) && head[4..8] == ToBig(height);
  }

  /** The three chunks of a written file. */
  function Written(crc: seq<Byte> -> nat, packed: seq<Byte>, width: nat, height: nat): seq<Byte> {
    Chunk(crc, IHDR, ToBig(width) + ToBig(height) + [8, 2, 0, 0, 0])
    + (Chunk(crc, IDAT, packed) + Chunk(crc, IEND, []))
  }

  lemma WrittenChunks(crc: seq<Byte> -> nat, packed: seq<Byte>, width: nat, height: nat)
    requires width < TWO32 && height < TWO32 && |packed| < TWO32
    ensures Chunks(Written(crc, packed, width, height), Content(None, [])) ==
            Some(Content(Some(Header(width, height, 8, 2, 0)), packed))
  {
    var h := Header(width, height, 8, 2, 0);
    var c3 := Chunk(crc, IEND, []);
    assert c3 + [] == c3;
    var c2 := Chunk(crc, IDAT, packed) + c3;
    HeaderRead(width, height);
    ChunkRead(crc, IEND, [], [], Content(Some(h), packed));
    ChunkRead(crc, IDAT, packed, c3, Content(Some(h), []));
    ChunkRead(crc, IHDR, ToBig(width) + ToBig(height) + [8, 2, 0, 0, 0], c2, Content(None, []));
    assert [] + packed == packed;
  }

  lemma {:induction false} PlainIsFiltered(rows: seq<seq<Byte>>, channels: nat, prev: seq<Byte>)
    requires channels > 0 && IsImage(rows, |prev|)
    ensures Plain(rows) == FilterImage(rows, Zeros(|rows|), channels, prev)
    decreases |rows|
  {
    if rows != [] {
      PlainIsFiltered(rows[1..], channels, rows[0]);
      assert Filtered(0, channels, rows[0], prev) == rows[0];
      assert Zeros(|rows|)[1..] == Zeros(|rows| - 1);
    }
  }

  lemma PlainRead(script: Script, rows: seq<seq<Byte>>, channels: nat, stride: nat)
    requires channels > 0 && IsImage(rows, stride)
    ensures Unfiltered(script, Plain(rows), 0, |rows|, stride, channels, Zeros(stride)) == Some(rows)
  {
    PlainIsFiltered(rows, channels, Zeros(stride));
    AtIsSlice(Plain(rows), 0, Plain(rows));
    UnfilterImage(script, Plain(rows), 0, rows, Zeros(|rows|), channels, Zeros(stride));
  }

  lemma BehindSignature(z: Zlib, chunks: seq<Byte>)
    ensures StreamOf(z, SIGNATURE + chunks) == Accepted(z, Chunks(chunks, Content(None, [])))
  {
    var data := SIGNATURE + chunks;
    assert data[..8] == SIGNATURE && data[8..] == chunks;
  }

  /** A written file holds the given size, three channels and the rows, whatever their lengths. */
  lemma WrittenStream(z: Zlib, crc: seq<Byte> -> nat, rows: seq<seq<Byte>>, width: nat, height: nat)
    requires Faithful(z) && WriteImage(z, crc, rows, width, height).Some?
    ensures StreamOf(z, WriteImage(z, crc, rows, width, height).value) == Some(Stream(width, height, 3, Plain(rows)))
  {
    var packed := z.compress(Plain(rows));
    WrittenChunks(crc, packed, width, height);
    BehindSignature(z, Written(crc, packed, width, height));
  }

  /** What is written is read back by both scripts: the same size, three channels, the same rows. */
  lemma WrittenIsRead(script: Script, z: Zlib, crc: seq<Byte> -> nat, rows: seq<seq<Byte>>, width: nat)
    requires Faithful(z) && IsImage(rows, width * 3)
    requires WriteImage(z, crc, rows, width, |rows|).Some?
    ensures ReadImage(script, z, WriteImage(z, crc, rows, width, |rows|).value) ==
            Some(Image(width, |rows|, 3, Flatten(rows)))
  {
    WrittenStream(z, crc, rows, width, |rows|);
    PlainRead(script, rows, 3, width * 3);
  }
}
