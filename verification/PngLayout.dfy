/**
 PNG files as any encoder lays them out: the signature, a header chunk, chunks of any kind with the image
 data among them, and the end chunk.  Both scripts read the image of every such file that they support.
 */
module PngLayout {
  import opened Options
  import opened Bytes
  import opened PngRows
  import opened PngFile

  /** A chunk: its name, its body and a checksum that is not looked at. */
  datatype Part = Part(name: string, body: seq<Byte>, sum: seq<Byte>)

  predicate PartFits(p: Part) {
    |p.name| == 4 && |p.body| < 0x1_0000_0000 && |p.sum| == 4 && forall i | 0 <= i < 4 :: p.name[i] < 128 as char
  }

  /** The codes of a name's characters; what has no code of one byte counts as 0. */
  function Ascii(name: string): (s: seq<Byte>)
    ensures |s| == |name|
  {
    seq(|name|, i requires 0 <= i < |name| => if name[i] < 128 as char then name[i] as int else 0)
  }

  function PartBytes(p: Part): seq<Byte> { ToBig(|p.body|) + Ascii(p.name) + p.body + p.sum }

  /** Numbers stand most significant byte first. */
  lemma BigIsReversed(n: nat, i: nat)
    requires i < 4
    ensures ToBig(n)[i] == n / Power(256, 3 - i) % 256
  {
    assert Power(256, 1) == 256 && Power(256, 2) == 65536 && Power(256, 3) == 16777216;
  }

  /** Names of chunks differ where their codes do. */
  lemma NamesDiffer(a: string, b: string)
    requires |a| == |b| == 4 && forall i | 0 <= i < 4 :: a[i] < 128 as char && b[i] < 128 as char
    ensures Ascii(a) == Ascii(b) <==> a == b
  {
    if Ascii(a) == Ascii(b) {
      forall i | 0 <= i < 4 ensures a[i] == b[i] {
        assert Ascii(a)[i] == Ascii(b)[i];
      }
      assert a == b;
    }
  }

  lemma Names()
    ensures IHDR == Ascii("IHDR") && IDAT == Ascii("IDAT") && IEND == Ascii("IEND")
  {
  }

  /** One chunk is taken for what it is. */
  lemma {:induction false} PartRead(p: Part, rest: seq<Byte>, so: Content)
    requires PartFits(p)
    ensures Chunks(PartBytes(p) + rest, so) == AfterChunk(Ascii(p.name), p.body, rest, so)
  {
    var d, n := PartBytes(p) + rest, |p.body|;
    BigRoundTrip(n);
    assert |d| == 12 + n + |rest|;
    assert d[..4] == ToBig(n) && d[4..8] == Ascii(p.name) && d[8..8 + n] == p.body && d[12 + n..] == rest;
  }

  // ---- Chunks behind the header ---------------------------------------------------------------------

  /** Chunks of any kind but the header and the end. */
  predicate Inner(p: Part) { PartFits(p) && p.name != "IHDR" && p.name != "IEND" }

  /** The image data: the bodies of the chunks named IDAT, joined. */
  function DataOf(parts: seq<Part>): seq<Byte> {
    if parts == [] then []
    else (if parts[0].name == "IDAT" then parts[0].body else []) + DataOf(parts[1..])
  }

  /** What there is of the content behind the chunk. */
  function WithPart(so: Content, p: Part): Content {
    if p.name == "IDAT" then Content(so.header, so.idat + p.body) else so
  }

  lemma {:induction false} InnerRead(p: Part, d: seq<Byte>, rest: seq<Byte>, so: Content)
    requires Inner(p) && d == PartBytes(p) + rest
    ensures Chunks(d, so) == Chunks(rest, WithPart(so, p))
  {
    Names();
    NamesDiffer(p.name, "IHDR");
    NamesDiffer(p.name, "IDAT");
    NamesDiffer(p.name, "IEND");
    PartRead(p, rest, so);
  }

  lemma {:induction false} WithMore(so: Content, parts: seq<Part>)
    requires parts != []
    ensures var next := WithPart(so, parts[0]);
            Content(next.header, next.idat + DataOf(parts[1..])) == Content(so.header, so.idat + DataOf(parts))
  {
    var more := DataOf(parts[1..]);
    assert so.idat + parts[0].body + more == so.idat + (parts[0].body + more) && [] + more == more;
  }

  lemma {:induction false} JoinedStep(parts: seq<Part>, rest: seq<Byte>)
    requires parts != []
    ensures Joined(parts, PartBytes) + rest == PartBytes(parts[0]) + (Joined(parts[1..], PartBytes) + rest)
  {
  }

  lemma {:induction false} PartsRead(parts: seq<Part>, d: seq<Byte>, rest: seq<Byte>, so: Content)
    requires (forall i | 0 <= i < |parts| :: Inner(parts[i])) && d == Joined(parts, PartBytes) + rest
    ensures Chunks(d, so) == Chunks(rest, Content(so.header, so.idat + DataOf(parts)))
    decreases |parts|
  {
    if parts == [] {
      assert d == rest && so.idat + [] == so.idat;
    } else {
      var next := Joined(parts[1..], PartBytes) + rest;
      JoinedStep(parts, rest);
      InnerRead(parts[0], d, next, so);
      PartsRead(parts[1..], next, rest, WithPart(so, parts[0]));
      WithMore(so, parts);
    }
  }

  // ---- Whole files ----------------------------------------------------------------------------------

  /** Compression and filter method stand between colour type and interlacing; the scripts ignore them. */
  datatype Head = Head(width: nat, height: nat, depth: Byte, colour: Byte, methods: seq<Byte>, interlace: Byte)

  predicate HeadFits(h: Head) { h.width < 0x1_0000_0000 && h.height < 0x1_0000_0000 && |h.methods| == 2 }

  function HeadBody(h: Head): seq<Byte> {
    ToBig(h.width) + ToBig(h.height) + [h.depth, h.colour] + h.methods + [h.interlace]
  }

  lemma HeadRead(h: Head)
    requires HeadFits(h)
    ensures |HeadBody(h)| == 13 && HeaderOf(HeadBody(h)) == Header(h.width, h.height, h.depth, h.colour, h.interlace)
  {
    BigRoundTrip(h.width);
    BigRoundTrip(h.height);
    assert HeadBody(h)[..4] == ToBig(h.width) && HeadBody(h)[4..8] == ToBig(h.height);
  }

  /** Header, inner chunks and end; anything may stand behind the end. */
  function ChunkBytes(h: Head, sum: seq<Byte>, parts: seq<Part>, end: seq<Byte>, tail: seq<Byte>): seq<Byte> {
    PartBytes(Part("IHDR", HeadBody(h), sum)) + (Joined(parts, PartBytes) + (PartBytes(Part("IEND", [], end)) + tail))
  }

  function FileBytes(h: Head, sum: seq<Byte>, parts: seq<Part>, end: seq<Byte>, tail: seq<Byte>): seq<Byte> {
    ([0x89] + Ascii("PNG\r\n") + [0x1a] + Ascii("\n")) + ChunkBytes(h, sum, parts, end, tail)
  }

  /** Channels by colour type: grey, colour, palette, grey with alpha, colour with alpha. */
  const CHANNELS: map<int, nat> := map[0 := 1, 2 := 3, 3 := 1, 4 := 2, 6 := 4]

  predicate Supported(h: Head) { h.depth == 8 && h.interlace == 0 && h.colour in CHANNELS }

  function HeaderOfFile(h: Head): Header { Header(h.width, h.height, h.depth, h.colour, h.interlace) }

  lemma {:induction false} FirstPart(h: Head, sum: seq<Byte>, rest: seq<Byte>)
    requires HeadFits(h) && |sum| == 4
    ensures Chunks(PartBytes(Part("IHDR", HeadBody(h), sum)) + rest, Content(None, [])) ==
            Chunks(rest, Content(Some(HeaderOfFile(h)), []))
  {
    Names();
    HeadRead(h);
    PartRead(Part("IHDR", HeadBody(h), sum), rest, Content(None, []));
  }

  lemma {:induction false} LastPart(end: seq<Byte>, tail: seq<Byte>, so: Content)
    requires |end| == 4
    ensures Chunks(PartBytes(Part("IEND", [], end)) + tail, so) == Some(so)
  {
    Names();
    PartRead(Part("IEND", [], end), tail, so);
  }

  lemma {:induction false} FileChunks(h: Head, sum: seq<Byte>, parts: seq<Part>, end: seq<Byte>, tail: seq<Byte>)
    requires HeadFits(h) && |sum| == |end| == 4 && forall i | 0 <= i < |parts| :: Inner(parts[i])
    ensures Chunks(ChunkBytes(h, sum, parts, end, tail), Content(None, [])) ==
            Some(Content(Some(HeaderOfFile(h)), DataOf(parts)))
  {
    var last := PartBytes(Part("IEND", [], end)) + tail;
    var inner := Joined(parts, PartBytes) + last;
    FirstPart(h, sum, inner);
    PartsRead(parts, inner, last, Content(Some(HeaderOfFile(h)), []));
    assert [] + DataOf(parts) == DataOf(parts);
    LastPart(end, tail, Content(Some(HeaderOfFile(h)), DataOf(parts)));
  }

  lemma SignatureIs()
    ensures SIGNATURE == [0x89] + Ascii("PNG\r\n") + [0x1a] + Ascii("\n")
  {
  }

  function StreamOfData(z: Zlib, h: Head, data: seq<Byte>): Option<Stream> {
    match z.decompress(data)
    case None => None
    case Some(raw) => if Supported(h) then Some(Stream(h.width, h.height, CHANNELS[h.colour], raw)) else None
  }

  lemma AcceptedHead(z: Zlib, h: Head, data: seq<Byte>)
    ensures Accepted(z, Some(Content(Some(HeaderOfFile(h)), data))) == StreamOfData(z, h, data)
  {
  }

  /** The stream of a file: refused unless supported, with the channels of its colour type. */
  lemma {:induction false} FileStream(z: Zlib, h: Head, sum: seq<Byte>, parts: seq<Part>, end: seq<Byte>,
                                      tail: seq<Byte>)
    requires HeadFits(h) && |sum| == |end| == 4 && forall i | 0 <= i < |parts| :: Inner(parts[i])
    ensures StreamOf(z, FileBytes(h, sum, parts, end, tail)) == StreamOfData(z, h, DataOf(parts))
  {
    SignatureIs();
    FileChunks(h, sum, parts, end, tail);
    BehindSignature(z, ChunkBytes(h, sum, parts, end, tail));
    AcceptedHead(z, h, DataOf(parts));
  }

  /** Every supported file whose data are the filtered rows of an image is read as that image. */
  lemma {:induction false} FileRead(script: Script, z: Zlib, h: Head, sum: seq<Byte>, parts: seq<Part>, end: seq<Byte>,
                                    tail: seq<Byte>, rows: seq<seq<Byte>>, filters: seq<Byte>)
    requires HeadFits(h) && |sum| == |end| == 4 && forall i | 0 <= i < |parts| :: Inner(parts[i])
    requires Supported(h) && |rows| == |filters| == h.height && IsImage(rows, h.width * CHANNELS[h.colour])
    requires var n := CHANNELS[h.colour];
             z.decompress(DataOf(parts)) == Some(FilterImage(rows, filters, n, Zeros(h.width * n)))
    ensures ReadImage(script, z, FileBytes(h, sum, parts, end, tail)) ==
            Some(Image(h.width, h.height, CHANNELS[h.colour], Flatten(rows)))
  {
    var n := CHANNELS[h.colour];
    var raw := FilterImage(rows, filters, n, Zeros(h.width * n));
    FileStream(z, h, sum, parts, end, tail);
    AtIsSlice(raw, 0, raw);
    UnfilterImage(script, raw, 0, rows, filters, n, Zeros(h.width * n));
  }

  /** What the zoom script writes: a header of eight-bit colour, one chunk of data, and true checksums. */
  lemma {:induction false} WrittenLayout(z: Zlib, crc: seq<Byte> -> nat, rows: seq<seq<Byte>>, width: nat, height: nat)
    requires WriteImage(z, crc, rows, width, height).Some?
    ensures var head, data := Head(width, height, 8, 2, [0, 0], 0), z.compress(Plain(rows));
            WriteImage(z, crc, rows, width, height) ==
            Some(FileBytes(head, ToBig(crc(Ascii("IHDR") + HeadBody(head))),
                           [Part("IDAT", data, ToBig(crc(Ascii("IDAT") + data)))],
                           ToBig(crc(Ascii("IEND"))), []))
  {
    var head, data := Head(width, height, 8, 2, [0, 0], 0), z.compress(Plain(rows));
    var part := Part("IDAT", data, ToBig(crc(Ascii("IDAT") + data)));
    Names();
    SignatureIs();
    assert HeadBody(head) == ToBig(width) + ToBig(height) + [8, 2, 0, 0, 0];
    assert Ascii("IEND") + [] == Ascii("IEND");
    OnePart(part);
    var last := Chunk(crc, IEND, []);
    assert last + [] == last;
  }

  lemma {:induction false} OnePart(p: Part)
    ensures Joined([p], PartBytes) == PartBytes(p)
  {
    assert Joined<Part>([], PartBytes) == [];
  }
}
