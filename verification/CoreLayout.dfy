/**
 Core files as the kernel lays them out: the ELF header, the program headers, and note segments whose
 notes stand one behind the other.  Both scripts return the mappings of the first NT_FILE note.
 */
module CoreLayout {
  import opened Options
  import opened Bytes
  import opened CoreNotes

  // ---- One note -------------------------------------------------------------------------------------

  datatype Note = Note(name: seq<Byte>, kind: nat, desc: seq<Byte>)

  /** Zeros up to the next multiple of four. */
  function Padding(n: nat): seq<Byte> { seq((4 - n % 4) % 4, _ => 0) }

  function Padded(s: seq<Byte>): seq<Byte> { s + Padding(|s|) }

  /** The sizes of name and description, the type, and both padded. */
  function NoteBytes(n: Note): seq<Byte> {
    Word(|n.name|, 4) + (Word(|n.desc|, 4) + (Word(n.kind, 4) + (Padded(n.name) + Padded(n.desc))))
  }

  predicate NoteFits(n: Note) {
    |n.name| < 0x1_0000_0000 && |n.desc| < 0x1_0000_0000 && n.kind < 0x1_0000_0000
  }

  lemma {:induction false} PaddedLength(s: seq<Byte>)
    ensures |Padded(s)| == Round4(|s|)
  {
  }

  lemma {:induction false} NumberAt(d: seq<Byte>, o: nat, n: nat, width: nat)
    requires n < Power(256, width) && At(d, o, Word(n, width))
    ensures o + width <= |d| && Number(d, o, width) == n
  {
    AtIsSlice(d, o, Word(n, width));
    LittleWord(n, width);
  }

  lemma {:induction false} Powers()
    ensures Power(256, 2) == 0x1_0000 && Power(256, 4) == 0x1_0000_0000 && Power(256, 8) == 0x1_0000_0000_0000_0000
  {
  }

  /** Where the parts of a note stand. */
  lemma {:induction false} NoteParts(d: seq<Byte>, pos: nat, n: Note)
    requires At(d, pos, NoteBytes(n))
    ensures At(d, pos, Word(|n.name|, 4)) && At(d, pos + 4, Word(|n.desc|, 4)) && At(d, pos + 8, Word(n.kind, 4))
    ensures At(d, pos + 12 + Round4(|n.name|), n.desc)
    ensures |NoteBytes(n)| == 12 + Round4(|n.name|) + Round4(|n.desc|)
  {
    var tail := Padded(n.name) + Padded(n.desc);
    AtParts(d, pos, Word(|n.name|, 4), Word(|n.desc|, 4) + (Word(n.kind, 4) + tail));
    AtParts(d, pos + 4, Word(|n.desc|, 4), Word(n.kind, 4) + tail);
    AtParts(d, pos + 8, Word(n.kind, 4), tail);
    AtParts(d, pos + 12, Padded(n.name), Padded(n.desc));
    PaddedLength(n.name);
    PaddedLength(n.desc);
    AtParts(d, pos + 12 + Round4(|n.name|), n.desc, Padding(|n.desc|));
  }

  lemma {:induction false} HeadRead(d: seq<Byte>, pos: nat, n: Note)
    requires NoteFits(n) && At(d, pos, NoteBytes(n))
    ensures HeadReader(d)(pos) == Some(NoteHead(|n.name|, |n.desc|, n.kind))
    ensures |NoteBytes(n)| == 12 + Round4(|n.name|) + Round4(|n.desc|)
  {
    NoteParts(d, pos, n);
    Powers();
    NumberAt(d, pos, |n.name|, 4);
    NumberAt(d, pos + 4, |n.desc|, 4);
    NumberAt(d, pos + 8, n.kind, 4);
  }

  // ---- One segment ----------------------------------------------------------------------------------

  /** Notes of other types stand one behind the other from `pos` to `next`. */
  ghost predicate OthersAt(d: seq<Byte>, pos: nat, notes: seq<Note>, next: nat)
    decreases |notes|
  {
    if notes == [] then pos == next
    else
      && NoteFits(notes[0]) && notes[0].kind != 0x46494C45 && At(d, pos, NoteBytes(notes[0]))
      && OthersAt(d, pos + |NoteBytes(notes[0])|, notes[1..], next)
  }

  /** An NT_FILE note stands at `at`. */
  ghost predicate FileNoteAt(d: seq<Byte>, at: nat, n: Note) {
    NoteFits(n) && n.kind == 0x46494C45 && At(d, at, NoteBytes(n))
  }

  lemma {:induction false} WalkOver(head: Heads, pos: nat, end: nat, h: NoteHead)
    requires head(pos) == Some(h) && pos + 12 <= end
    ensures NoteIn(head, pos, end) ==
            if h.kind == 0x46494C45 then Found(pos + 12 + Round4(h.nameSize), h.size)
            else NoteIn(head, pos + 12 + Round4(h.nameSize) + Round4(h.size), end)
  {
  }

  lemma {:induction false} PassesNote(d: seq<Byte>, pos: nat, n: Note, end: nat)
    requires NoteFits(n) && n.kind != 0x46494C45 && At(d, pos, NoteBytes(n)) && pos + |NoteBytes(n)| <= end
    ensures NoteIn(HeadReader(d), pos, end) == NoteIn(HeadReader(d), pos + |NoteBytes(n)|, end)
  {
    HeadRead(d, pos, n);
    WalkOver(HeadReader(d), pos, end, NoteHead(|n.name|, |n.desc|, n.kind));
  }

  /** The walk passes over notes of other types. */
  lemma {:induction false} WalkPasses(d: seq<Byte>, pos: nat, notes: seq<Note>, next: nat, end: nat)
    requires OthersAt(d, pos, notes, next) && next <= end
    ensures pos <= next && NoteIn(HeadReader(d), pos, end) == NoteIn(HeadReader(d), next, end)
    decreases |notes|
  {
    if notes != [] {
      WalkPasses(d, pos + |NoteBytes(notes[0])|, notes[1..], next, end);
      PassesNote(d, pos, notes[0], end);
    }
  }

  /** The walk stops at an NT_FILE note and delivers where its description stands. */
  lemma {:induction false} FoundHere(d: seq<Byte>, at: nat, end: nat, n: Note)
    requires FileNoteAt(d, at, n) && at + |NoteBytes(n)| <= end
    ensures NoteIn(HeadReader(d), at, end) == Found(at + 12 + Round4(|n.name|), |n.desc|)
  {
    HeadRead(d, at, n);
    WalkOver(HeadReader(d), at, end, NoteHead(|n.name|, |n.desc|, n.kind));
  }

  /** The description of an NT_FILE note behind notes of other types is found. */
  lemma {:induction false} WalkFinds(d: seq<Byte>, pos: nat, notes: seq<Note>, at: nat, n: Note, end: nat)
    requires OthersAt(d, pos, notes, at) && FileNoteAt(d, at, n) && at + |NoteBytes(n)| <= end
    ensures NoteIn(HeadReader(d), pos, end) == Found(at + 12 + Round4(|n.name|), |n.desc|)
  {
    WalkPasses(d, pos, notes, at, end);
    FoundHere(d, at, end, n);
  }

  lemma {:induction false} WalkEnds(d: seq<Byte>, pos: nat, notes: seq<Note>, next: nat)
    requires OthersAt(d, pos, notes, next)
    ensures NoteIn(HeadReader(d), pos, next) == Absent
  {
    WalkPasses(d, pos, notes, next, next);
  }

  // ---- Program headers ------------------------------------------------------------------------------

  datatype Header = Header(kind: nat, flags: nat, offset: nat, vaddr: nat, paddr: nat, filesz: nat, memsz: nat)

  function HeaderBytes(h: Header): seq<Byte> {
    Word(h.kind, 4) + (Word(h.flags, 4) + (Word(h.offset, 8) + (Word(h.vaddr, 8)
    + (Word(h.paddr, 8) + (Word(h.filesz, 8) + Word(h.memsz, 8))))))
  }

  predicate HeaderFits(h: Header) {
    && h.kind < 0x1_0000_0000 && Fits(h.offset) && Fits(h.vaddr) && Fits(h.filesz) && Fits(h.memsz)
  }

  function PhdrOf(h: Header): Phdr { Phdr(h.kind, h.offset, h.vaddr, h.filesz, h.memsz) }

  lemma {:induction false} HeaderParts(d: seq<Byte>, o: nat, h: Header)
    requires At(d, o, HeaderBytes(h))
    ensures At(d, o, Word(h.kind, 4)) && At(d, o + 8, Word(h.offset, 8)) && At(d, o + 16, Word(h.vaddr, 8))
    ensures At(d, o + 32, Word(h.filesz, 8)) && At(d, o + 40, Word(h.memsz, 8))
  {
    var e := Word(h.filesz, 8) + Word(h.memsz, 8);
    var p := Word(h.paddr, 8) + e;
    var v := Word(h.vaddr, 8) + p;
    var f := Word(h.offset, 8) + v;
    AtParts(d, o, Word(h.kind, 4), Word(h.flags, 4) + f);
    AtParts(d, o + 4, Word(h.flags, 4), f);
    AtParts(d, o + 8, Word(h.offset, 8), v);
    AtParts(d, o + 16, Word(h.vaddr, 8), p);
    AtParts(d, o + 24, Word(h.paddr, 8), e);
    AtParts(d, o + 32, Word(h.filesz, 8), Word(h.memsz, 8));
  }

  lemma {:induction false} HeaderRead(d: seq<Byte>, size: nat, o: nat, h: Header)
    requires HeaderFits(h) && At(d, o, HeaderBytes(h))
    ensures PhdrReader(d, size)(o) == Some(Read(PhdrOf(h), o + size))
  {
    HeaderParts(d, o, h);
    Powers();
    NumberAt(d, o, h.kind, 4);
    NumberAt(d, o + 8, h.offset, 8);
    NumberAt(d, o + 16, h.vaddr, 8);
    NumberAt(d, o + 32, h.filesz, 8);
    NumberAt(d, o + 40, h.memsz, 8);
  }

  /** The headers stand `size` bytes apart. */
  ghost predicate HeadersAt(d: seq<Byte>, o: nat, size: nat, headers: seq<Header>)
    decreases |headers|
  {
    headers == [] ||
    (HeaderFits(headers[0]) && At(d, o, HeaderBytes(headers[0])) && HeadersAt(d, o + size, size, headers[1..]))
  }

  lemma {:induction false} HeadersRead(d: seq<Byte>, o: nat, size: nat, headers: seq<Header>)
    requires HeadersAt(d, o, size, headers)
    ensures Table(PhdrReader(d, size), o, |headers|) == Some(Each(headers, PhdrOf))
    decreases |headers|
  {
    if headers != [] {
      var reader := PhdrReader(d, size);
      assert reader(o) == Some(Read(PhdrOf(headers[0]), o + size)) by {
        HeaderRead(d, size, o, headers[0]);
      }
      HeadersRead(d, o + size, size, headers[1..]);
      assert Table(reader, o, |headers|) == Some([PhdrOf(headers[0])] + Each(headers[1..], PhdrOf));
      EachStep(headers, PhdrOf);
    }
  }

  // ---- The whole file -------------------------------------------------------------------------------

  ghost predicate OthersOnly(d: seq<Byte>, pos: nat,
      end: nat) { exists notes: seq<Note> :: OthersAt(d, pos, notes, end) }

  /** A segment that is no note segment, or holds notes of other types only. */
  ghost predicate WithoutFiles(d: seq<Byte>, h: Header) {
    h.kind == 4 ==> OthersOnly(d, h.offset, h.offset + h.filesz)
  }

  /** A note segment with an NT_FILE note at `at`, behind notes of other types. */
  ghost predicate WithFiles(d: seq<Byte>, h: Header, notes: seq<Note>, at: nat, n: Note) {
    && h.kind == 4 && OthersAt(d, h.offset, notes, at) && FileNoteAt(d, at, n)
    && at + |NoteBytes(n)| <= h.offset + h.filesz
  }

  function Segments(headers: seq<Header>): seq<Segment> { Present(Each(Each(headers, PhdrOf), AsNote)) }

  /** What the walk finds in the notes of a segment. */
  function InSegment(head: Heads, h: Header): Search { NoteIn(head, h.offset, h.offset + h.filesz) }

  predicate Passed(head: Heads, h: Header) { h.kind == 4 ==> InSegment(head, h) == Absent }

  lemma {:induction false} SegmentsStep(head: Heads, headers: seq<Header>)
    requires headers != []
    ensures SearchNotes(head, Segments(headers)) ==
            if Passed(head, headers[0]) then SearchNotes(head, Segments(headers[1..])) else InSegment(head, headers[0])
  {
    SearchStep(head, Each(headers, PhdrOf));
    assert Each(headers, PhdrOf)[1..] == Each(headers[1..], PhdrOf);
  }

  /** The search goes past segments without the note to the first one that has it. */
  lemma {:induction false} SearchFinds(head: Heads, headers: seq<Header>, k: nat)
    requires k < |headers| && !Passed(head, headers[k]) && forall i | 0 <= i < k :: Passed(head, headers[i])
    ensures SearchNotes(head, Segments(headers)) == InSegment(head, headers[k])
  {
    SegmentsStep(head, headers);
    if k > 0 {
      SearchFinds(head, headers[1..], k - 1);
    }
  }

  lemma {:induction false} SearchFails(head: Heads, headers: seq<Header>)
    requires forall i | 0 <= i < |headers| :: Passed(head, headers[i])
    ensures SearchNotes(head, Segments(headers)) == Absent
    decreases |headers|
  {
    if headers != [] {
      SegmentsStep(head, headers);
      SearchFails(head, headers[1..]);
    }
  }

  lemma {:induction false} PassesSegment(d: seq<Byte>, h: Header)
    requires WithoutFiles(d, h)
    ensures Passed(HeadReader(d), h)
  {
    if h.kind == 4 {
      var notes: seq<Note> :| OthersAt(d, h.offset, notes, h.offset + h.filesz);
      WalkEnds(d, h.offset, notes, h.offset + h.filesz);
    }
  }

  lemma {:induction false} PassesSegments(d: seq<Byte>, headers: seq<Header>, k: nat)
    requires k <= |headers| && forall i | 0 <= i < k :: WithoutFiles(d, headers[i])
    ensures forall i | 0 <= i < k :: Passed(HeadReader(d), headers[i])
  {
    forall i | 0 <= i < k ensures Passed(HeadReader(d), headers[i]) {
      PassesSegment(d, headers[i]);
    }
  }

  lemma {:induction false} FindsInSegment(d: seq<Byte>, h: Header, notes: seq<Note>, at: nat, n: Note)
    requires WithFiles(d, h, notes, at, n)
    ensures h.kind == 4 && InSegment(HeadReader(d), h) == Found(at + 12 + Round4(|n.name|), |n.desc|)
  {
    WalkFinds(d, h.offset, notes, at, n, h.offset + h.filesz);
  }

  /** The ELF header: magic, 64-bit class, and where the program headers stand. */
  ghost predicate ElfHeader(d: seq<Byte>, phoff: nat, size: nat, count: nat) {
    && |d| >= 58 && At(d, 0, [127, 69, 76, 70, 2])
    && At(d, 32, Word(phoff, 8)) && At(d, 54, Word(size, 2)) && At(d, 56, Word(count, 2))
    && Fits(phoff) && size < 0x1_0000 && count < 0x1_0000
  }

  lemma {:induction false} ElfRead(d: seq<Byte>, phoff: nat, size: nat, count: nat)
    requires ElfHeader(d, phoff, size, count)
    ensures IsCore(d) && TableOffset(d) == phoff && EntrySize(d) == size && EntryCount(d) == count
  {
    AtIsSlice(d, 0, [127, 69, 76, 70, 2]);
    assert d[..4] == d[0..5][..4] && d[4] == d[0..5][4];
    Powers();
    NumberAt(d, 32, phoff, 8);
    NumberAt(d, 54, size, 2);
    NumberAt(d, 56, count, 2);
  }

  /** The headers as both scripts come by them. */
  lemma {:induction false} CoreRead(d: seq<Byte>, phoff: nat, size: nat, headers: seq<Header>)
    requires ElfHeader(d, phoff, size, |headers|) && HeadersAt(d, phoff, size, headers)
    ensures IsCore(d) && Table(PhdrReader(d, EntrySize(d)), TableOffset(d), EntryCount(d)) ==
            Some(Each(headers, PhdrOf))
  {
    ElfRead(d, phoff, size, |headers|);
    HeadersRead(d, phoff, size, headers);
  }

  /** The note of a layout is the one that the search finds. */
  lemma {:induction false} NoteFound(d: seq<Byte>, headers: seq<Header>, k: nat, notes: seq<Note>, at: nat, n: Note)
    requires k < |headers| && WithFiles(d, headers[k], notes, at, n)
    requires forall i | 0 <= i < k :: WithoutFiles(d, headers[i])
    ensures SearchNotes(HeadReader(d), Segments(headers)) == Found(at + 12 + Round4(|n.name|), |n.desc|)
    ensures At(d, at + 12 + Round4(|n.name|), n.desc)
  {
    assert InSegment(HeadReader(d), headers[k]) == Found(at + 12 + Round4(|n.name|), |n.desc|) by {
      FindsInSegment(d, headers[k], notes, at, n);
    }
    PassesSegments(d, headers, k);
    SearchFinds(HeadReader(d), headers, k);
    assert At(d, at + 12 + Round4(|n.name|), n.desc) by {
      NoteParts(d, at, n);
    }
  }

  /**
   A core file as the kernel lays it out: both scripts return the mappings of its first NT_FILE note,
   whatever segments and notes of other types stand before it.
   */
  lemma {:induction false} KernelCore(d: seq<Byte>, phoff: nat, size: nat, headers: seq<Header>, k: nat,
      notes: seq<Note>, at: nat,
                   name: seq<Byte>, areas: seq<Area>, page: nat, decode: Decoder)
    requires ElfHeader(d, phoff, size, |headers|) && HeadersAt(d, phoff, size, headers) && k < |headers|
    requires forall i | 0 <= i < k :: WithoutFiles(d, headers[i])
    requires WithFiles(d, headers[k], notes, at, Note(name, 0x46494C45, DescriptionBytes(areas, page)))
    requires (forall i | 0 <= i < |areas| :: Writable(areas[i])) && Fits(|areas|) && Fits(page)
    ensures WellFormed(d)
    ensures StackFiles(d, decode) == Some(MappingsOf(areas, page, decode))
    ensures MemoryFiles(d, decode) == Some(FilesOf(areas, decode))
  {
    var n := Note(name, 0x46494C45, DescriptionBytes(areas, page));
    var desc := at + 12 + Round4(|name|);
    CoreRead(d, phoff, size, headers);
    NoteFound(d, headers, k, notes, at, n);
    FoundDescription(d, desc, areas, page, decode);
  }

  /** A core file without the note: both scripts return nothing. */
  lemma {:induction false} CoreWithoutFiles(d: seq<Byte>, phoff: nat, size: nat, headers: seq<Header>, decode: Decoder)
    requires ElfHeader(d, phoff, size, |headers|) && HeadersAt(d, phoff, size, headers)
    requires forall i | 0 <= i < |headers| :: WithoutFiles(d, headers[i])
    ensures StackFiles(d, decode) == Some([]) && MemoryFiles(d, decode) == Some([])
  {
    CoreRead(d, phoff, size, headers);
    PassesSegments(d, headers, |headers|);
    SearchFails(HeadReader(d), headers);
    NothingFound(d, decode);
  }
}
