/**
 The NT_FILE note of a core dump, read by two scripts.  The stack script cuts the note's description
 out of the file and splits its names at NUL; the memory script reads in place and scans name by name.
 */
module CoreNotes {
  import opened Options
  import opened Bytes

  const NT_FILE: nat := 0x46494C45
  const PT_NOTE: nat := 4
  const ELF: seq<Byte> := [127, 69, 76, 70]

  type Decoder = seq<Byte> -> string

  /** The next multiple of four. */
  function Round4(n: nat): nat { (n + 3) / 4 * 4 }

  function Number(d: seq<Byte>, o: nat, width: nat): nat
    requires o + width <= |d|
  {
    Little(d[o..o + width])
  }

  // ---- Program headers ------------------------------------------------------------------------------

  datatype Segment = Segment(offset: nat, size: nat)
  datatype Phdr = Phdr(kind: nat, offset: nat, vaddr: nat, filesz: nat, memsz: nat)

  predicate IsCore(d: seq<Byte>) { |d| >= 58 && d[..4] == ELF && d[4] == 2 }

  function TableOffset(d: seq<Byte>): nat requires |d| >= 58 { Number(d, 32, 8) }
  function EntrySize(d: seq<Byte>): nat requires |d| >= 58 { Number(d, 54, 2) }
  function EntryCount(d: seq<Byte>): nat requires |d| >= 58 { Number(d, 56, 2) }

  /** The stack script looks at the type first, and reads the rest of a note header only. */
  function NoteHeaderAt(d: seq<Byte>, size: nat, o: nat): Option<Read<Option<Segment>>> {
    if o + 4 > |d| then None
    else if Number(d, o, 4) != PT_NOTE then Some(Read(None, o + size))
    else if o + 40 > |d| then None
    else Some(Read(Some(Segment(Number(d, o + 8, 8), Number(d, o + 32, 8))), o + size))
  }

  /** The memory script reads every header whole. */
  function PhdrAt(d: seq<Byte>, size: nat, o: nat): Option<Read<Phdr>> {
    if o + 48 > |d| then None
    else
      var vaddr, filesz, memsz := Number(d, o + 16, 8), Number(d, o + 32, 8), Number(d, o + 40, 8);
      Some(Read(Phdr(Number(d, o, 4), Number(d, o + 8, 8), vaddr, filesz, memsz), o + size))
  }

  function NoteHeaderReader(d: seq<Byte>, size: nat): nat -> Option<Read<Option<Segment>>> {
    (o: nat) => NoteHeaderAt(d, size, o)
  }
  function PhdrReader(d: seq<Byte>, size: nat): nat -> Option<Read<Phdr>> { (o: nat) => PhdrAt(d, size, o) }

  function Present(headers: seq<Option<Segment>>): seq<Segment> {
    if headers == [] then []
    else (if headers[0].Some? then [headers[0].value] else []) + Present(headers[1..])
  }

  function AsNote(p: Phdr): Option<Segment> { if p.kind == PT_NOTE then Some(Segment(p.offset, p.filesz)) else None }

  /** The offset of the next header in a table. */
  lemma NextRow(start: nat, size: nat, i: nat)
    ensures start + i * size + size == start + (i + 1) * size
  {
  }

  /** The loop over the rows of a table, each `size` bytes behind the one before. */
  method ReadRows<T>(entry: nat -> Option<Read<T>>, start: nat, size: nat, count: nat) returns (out: Option<seq<T>>)
    requires forall o: nat :: entry(o).Some? ==> entry(o).value.at == o + size
    ensures out == Table(entry, start, count)
  {
    var so: seq<T> := [];
    BehindNothing(Table(entry, start, count));
    for i := 0 to count
      invariant Table(entry, start, count) == Behind(so, Table(entry, start + i * size, count - i))
    {
      var off := start + i * size;
      NextRow(start, size, i);
      TableStep(so, entry, off, count - i);
      var row := entry(off);
      if row.None? {
        return None;
      }
      so := so + [row.value.value];
    }
    assert so + [] == so;
    out := Some(so);
  }

  method NoteSegments(d: seq<Byte>) returns (notes: Option<seq<Segment>>)
    requires |d| >= 58
    ensures var headers := Table(NoteHeaderReader(d, EntrySize(d)), TableOffset(d), EntryCount(d));
            notes == if headers.None? then None else Some(Present(headers.value))
  {
    var headers := ReadRows(NoteHeaderReader(d, EntrySize(d)), TableOffset(d), EntrySize(d), EntryCount(d));
    notes := if headers.None? then None else Some(Present(headers.value));
  }

  method Phdrs(d: seq<Byte>) returns (out: Option<seq<Phdr>>)
    requires |d| >= 58
    ensures out == Table(PhdrReader(d, EntrySize(d)), TableOffset(d), EntryCount(d))
  {
    out := ReadRows(PhdrReader(d, EntrySize(d)), TableOffset(d), EntrySize(d), EntryCount(d));
  }

  /** Where every header can be read whole, both scripts see the same note segments. */
  lemma {:induction false} SameNotes(d: seq<Byte>, size: nat, o: nat, count: nat)
    requires Table(PhdrReader(d, size), o, count).Some?
    ensures Table(NoteHeaderReader(d, size), o, count) == Some(Each(Table(PhdrReader(d, size), o, count).value, AsNote))
    decreases count
  {
    if count > 0 {
      SameNotes(d, size, o + size, count - 1);
      var first := PhdrReader(d, size)(o).value.value;
      var rest := Table(PhdrReader(d, size), o + size, count - 1).value;
      assert NoteHeaderReader(d, size)(o) == Some(Read(AsNote(first), o + size));
      assert Each([first] + rest, AsNote) == [AsNote(first)] + Each(rest, AsNote);
    }
  }

  // ---- Walking the notes ----------------------------------------------------------------------------

  /** The outcome of looking for the note: reading failed, there is none, or where its description is. */
  datatype Search = Failed | Absent | Found(desc: nat, size: nat)

  /** The three words in front of a note; nothing where they cannot be read. */
  datatype NoteHead = NoteHead(nameSize: nat, size: nat, kind: nat)

  function HeadAt(d: seq<Byte>, pos: nat): Option<NoteHead> {
    if pos + 12 > |d| then None else Some(NoteHead(Number(d, pos, 4), Number(d, pos + 4, 4), Number(d, pos + 8, 4)))
  }

  type Heads = nat -> Option<NoteHead>

  function HeadReader(d: seq<Byte>): Heads { (pos: nat) => HeadAt(d, pos) }

  function NextNote(h: NoteHead, pos: nat): nat { pos + 12 + Round4(h.nameSize) + Round4(h.size) }

  function NoteIn(head: Heads, pos: nat, end: nat): Search
    decreases if pos <= end then end - pos else 0
  {
    if pos + 12 > end then Absent
    else match head(pos)
      case None => Failed
      case Some(h) =>
        if h.kind == NT_FILE then Found(pos + 12 + Round4(h.nameSize), h.size) else NoteIn(head, NextNote(h, pos), end)
  }

  /** The walk goes on behind the note at `pos`. */
  predicate GoesOn(head: Heads, pos: nat, end: nat) {
    pos + 12 <= end && head(pos).Some? && head(pos).value.kind != NT_FILE
  }

  /** The cursor positions of the walk. */
  ghost function Visits(head: Heads, pos: nat, end: nat): seq<nat>
    decreases if pos <= end then end - pos else 0
  {
    if GoesOn(head, pos, end) then [pos] + Visits(head, NextNote(head(pos).value, pos), end) else [pos]
  }

  /** One step forward: by at least a note header, and by a multiple of four. */
  lemma NextAdvances(h: NoteHead, pos: nat)
    ensures NextNote(h, pos) >= pos + 12 && (NextNote(h, pos) - pos) % 4 == 0
  {
  }

  /** Positions that grow by at least twelve each time and keep their distance to `pos` a multiple of four. */
  ghost predicate Advancing(visits: seq<nat>, pos: nat) {
    && visits != [] && visits[0] == pos
    && (forall i | 0 <= i < |visits| :: visits[i] >= pos && (visits[i] - pos) % 4 == 0)
    && (forall i | 0 < i < |visits| :: visits[i] >= visits[i - 1] + 12)
  }

  lemma AdvancingStep(rest: seq<nat>, pos: nat, next: nat)
    requires Advancing(rest, next) && next >= pos + 12 && (next - pos) % 4 == 0
    ensures Advancing([pos] + rest, pos)
  {
    var all := [pos] + rest;
    forall i | 0 <= i < |all| ensures all[i] >= pos && (all[i] - pos) % 4 == 0 {
      if i > 0 {
        assert all[i] - pos == (rest[i - 1] - next) + (next - pos);
      }
    }
    forall i | 0 < i < |all| ensures all[i] >= all[i - 1] + 12 {
      if i > 1 {
        assert all[i] == rest[i - 1] && all[i - 1] == rest[i - 2];
      }
    }
  }

  /** The cursor moves forward by at least a note header each time and stays aligned to four bytes. */
  lemma {:induction false} VisitsAdvance(head: Heads, pos: nat, end: nat)
    ensures Advancing(Visits(head, pos, end), pos)
    decreases if pos <= end then end - pos else 0
  {
    if GoesOn(head, pos, end) {
      var next := NextNote(head(pos).value, pos);
      NextAdvances(head(pos).value, pos);
      VisitsAdvance(head, next, end);
      AdvancingStep(Visits(head, next, end), pos, next);
    }
  }

  /** The stack script: the cursor is past the note before its type is looked at. */
  method WalkStack(head: Heads, note: Segment) returns (found: Search, ghost visits: seq<nat>)
    ensures found == NoteIn(head, note.offset, note.offset + note.size)
    ensures visits == Visits(head, note.offset, note.offset + note.size)
  {
    var pos, end := note.offset, note.offset + note.size;
    visits := [];
    while pos + 12 <= end
      invariant NoteIn(head, note.offset, end) == NoteIn(head, pos, end)
      invariant Visits(head, note.offset, end) == visits + Visits(head, pos, end)
      decreases end - pos
    {
      visits := visits + [pos];
      var h := head(pos);
      if h.None? {
        return Failed, visits;
      }
      pos := pos + 12;
      var nameEnd := pos + Round4(h.value.nameSize);
      pos := nameEnd + Round4(h.value.size);
      if h.value.kind != NT_FILE {
        continue;
      }
      return Found(nameEnd, h.value.size), visits;
    }
    visits := visits + [pos];
    found := Absent;
  }

  /** The memory script: the cursor moves only past notes of other types. */
  method WalkMemory(head: Heads, note: Segment) returns (found: Search, ghost visits: seq<nat>)
    ensures found == NoteIn(head, note.offset, note.offset + note.size)
    ensures visits == Visits(head, note.offset, note.offset + note.size)
  {
    var pos, end := note.offset, note.offset + note.size;
    visits := [];
    while pos + 12 <= end
      invariant NoteIn(head, note.offset, end) == NoteIn(head, pos, end)
      invariant Visits(head, note.offset, end) == visits + Visits(head, pos, end)
      decreases end - pos
    {
      visits := visits + [pos];
      var h := head(pos);
      if h.None? {
        return Failed, visits;
      }
      var desc := pos + 12 + Round4(h.value.nameSize);
      if h.value.kind == NT_FILE {
        return Found(desc, h.value.size), visits;
      }
      pos := desc + Round4(h.value.size);
    }
    visits := visits + [pos];
    found := Absent;
  }

  function SearchNotes(head: Heads, notes: seq<Segment>): Search {
    if notes == [] then Absent
    else match NoteIn(head, notes[0].offset, notes[0].offset + notes[0].size)
      case Absent => SearchNotes(head, notes[1..])
      case found => found
  }

  method FindStack(head: Heads, notes: seq<Segment>) returns (found: Search)
    ensures found == SearchNotes(head, notes)
  {
    for i := 0 to |notes|
      invariant SearchNotes(head, notes) == SearchNotes(head, notes[i..])
    {
      ghost var visits;
      found, visits := WalkStack(head, notes[i]);
      if !found.Absent? {
        return;
      }
    }
    found := Absent;
  }

  lemma SearchStep(head: Heads, headers: seq<Phdr>)
    requires headers != []
    ensures var rest := SearchNotes(head, Present(Each(headers[1..], AsNote)));
            SearchNotes(head, Present(Each(headers, AsNote))) ==
            match AsNote(headers[0])
            case None => rest
            case Some(note) =>
              match NoteIn(head, note.offset, note.offset + note.size)
              case Absent => rest
              case found => found
  {
    var rest := Present(Each(headers[1..], AsNote));
    assert Each(headers, AsNote)[1..] == Each(headers[1..], AsNote);
    match AsNote(headers[0])
    case None => assert [] + rest == rest;
    case Some(note) => assert ([note] + rest)[1..] == rest;
  }

  method FindMemory(head: Heads, headers: seq<Phdr>) returns (found: Search)
    ensures found == SearchNotes(head, Present(Each(headers, AsNote)))
  {
    for i := 0 to |headers|
      invariant SearchNotes(head, Present(Each(headers, AsNote))) ==
                SearchNotes(head, Present(Each(headers[i..], AsNote)))
    {
      SearchStep(head, headers[i..]);
      if headers[i].kind != PT_NOTE {
        continue;
      }
      ghost var visits;
      found, visits := WalkMemory(head, Segment(headers[i].offset, headers[i].filesz));
      if !found.Absent? {
        return;
      }
    }
    found := Absent;
  }

  // ---- The description ------------------------------------------------------------------------------

  datatype Triple = Triple(start: nat, stop: nat, page: nat)

  function TripleAt(d: seq<Byte>, o: nat): Option<Read<Triple>> {
    if o + 24 > |d| then None
    else Some(Read(Triple(Number(d, o, 8), Number(d, o + 8, 8), Number(d, o + 16, 8)), o + 24))
  }

  function TripleReader(d: seq<Byte>): nat -> Option<Read<Triple>> { (o: nat) => TripleAt(d, o) }

  /** The first NUL at or behind an offset. */
  function NulFrom(d: seq<Byte>, o: nat): (z: Option<nat>)
    ensures z.Some? ==> o <= z.value < |d| && d[z.value] == 0 && forall k | o <= k < z.value :: d[k] != 0
    ensures z.None? ==> forall k | o <= k < |d| :: d[k] != 0
    decreases |d| - o
  {
    if o >= |d| then None else if d[o] == 0 then Some(o) else NulFrom(d, o + 1)
  }

  function NameAt(d: seq<Byte>, o: nat): Option<Read<seq<Byte>>> {
    match NulFrom(d, o)
    case None => None
    case Some(z) => Some(Read(d[o..z], z + 1))
  }

  function NameReader(d: seq<Byte>): nat -> Option<Read<seq<Byte>>> { (o: nat) => NameAt(d, o) }

  /** Python's `split` at NUL: one piece more than there are NULs. */
  function Split(s: seq<Byte>): (pieces: seq<seq<Byte>>)
    ensures |pieces| == Nuls(s) + 1
    decreases |s|
  {
    match NulFrom(s, 0)
    case None => NoNuls(s); [s]
    case Some(z) => NulsBehind(s, z); [s[..z]] + Split(s[z + 1..])
  }

  function Nuls(s: seq<Byte>): nat {
    if s == [] then 0 else (if s[0] == 0 then 1 else 0) + Nuls(s[1..])
  }

  lemma {:induction false} NoNuls(s: seq<Byte>)
    requires forall k | 0 <= k < |s| :: s[k] != 0
    ensures Nuls(s) == 0
  {
    if s != [] {
      NoNuls(s[1..]);
    }
  }

  lemma {:induction false} NulsBehind(s: seq<Byte>, z: nat)
    requires z < |s| && s[z] == 0 && forall k | 0 <= k < z :: s[k] != 0
    ensures Nuls(s) == 1 + Nuls(s[z + 1..])
  {
    if z > 0 {
      NulsBehind(s[1..], z - 1);
      assert s[1..][z..] == s[z + 1..];
    }
  }

  lemma NulShifted(d: seq<Byte>, o: nat, end: nat)
    requires o <= end <= |d| && NulFrom(d[o..end], 0).Some?
    ensures NulFrom(d, o) == Some(o + NulFrom(d[o..end], 0).value)
  {
    var s := d[o..end];
    var z := NulFrom(s, 0).value;
    assert s[z] == d[o + z];
    assert forall k | o <= k < o + z :: d[k] == s[k - o];
  }

  /** The first name of a list, found both ways. */
  lemma NameStep(d: seq<Byte>, o: nat, end: nat)
    requires o <= end <= |d| && Nuls(d[o..end]) > 0
    ensures NameAt(d, o).Some?
    ensures var r := NameAt(d, o).value;
            && o < r.at <= end
            && Nuls(d[r.at..end]) == Nuls(d[o..end]) - 1
            && Split(d[o..end]) == [r.value] + Split(d[r.at..end])
  {
    var s := d[o..end];
    if NulFrom(s, 0).None? {
      NoNuls(s);
      assert false;
    }
    var z := NulFrom(s, 0).value;
    NulShifted(d, o, end);
    NulsBehind(s, z);
    assert s[z + 1..] == d[o + z + 1..end] && s[..z] == d[o..o + z];
  }

  /** Scanning name by name finds the pieces of the split, as long as there are that many NULs. */
  lemma {:induction false} NamesAgree(d: seq<Byte>, o: nat, end: nat, count: nat)
    requires o <= end <= |d| && Nuls(d[o..end]) >= count
    ensures Table(NameReader(d), o, count) == Some(Split(d[o..end])[..count])
    decreases count
  {
    if count > 0 {
      NameStep(d, o, end);
      var r := NameAt(d, o).value;
      NamesAgree(d, r.at, end, count - 1);
      var rest := Split(d[r.at..end]);
      assert ([r.value] + rest)[..count] == [r.value] + rest[..count - 1];
    }
  }

  // ---- The stack script -----------------------------------------------------------------------------

  datatype Mapping = Mapping(start: nat, stop: nat, offset: nat, name: Option<string>)

  function Mapped(t: Triple, page: nat): Mapping { Mapping(t.start, t.stop, t.page * page, None) }

  function Tail(s: seq<Byte>, from: nat): seq<Byte> { if from >= |s| then [] else s[from..] }

  /** The mappings with their names; names that are missing leave nothing. */
  function Named(ts: seq<Triple>, page: nat, names: seq<seq<Byte>>, decode: Decoder): (ms: seq<Mapping>)
    ensures |ms| == |ts|
  {
    seq(|ts|, j requires 0 <= j < |ts| =>
      Mapped(ts[j], page).(name := if j < |names| then Some(decode(names[j])) else None))
  }

  /** The mappings of a description that announces `count` of them. */
  function StackBody(desc: seq<Byte>, count: nat, page: nat, decode: Decoder): Option<seq<Mapping>> {
    match Table(TripleReader(desc), 16, count)
    case None => None
    case Some(ts) => Some(Named(ts, page, Split(Tail(desc, 16 + count * 24)), decode))
  }

  function StackEntries(desc: seq<Byte>, decode: Decoder): Option<seq<Mapping>> {
    if |desc| < 16 then None else StackBody(desc, Number(desc, 0, 8), Number(desc, 8, 8), decode)
  }

  function StackFiles(d: seq<Byte>, decode: Decoder): Option<seq<Mapping>> {
    if !IsCore(d) then None
    else match Table(NoteHeaderReader(d, EntrySize(d)), TableOffset(d), EntryCount(d))
      case None => None
      case Some(headers) =>
        match SearchNotes(HeadReader(d), Present(headers))
        case Failed => None
        case Absent => Some([])
        case Found(desc, size) => StackEntries(Slice(d, desc, size), decode)
  }

  /** Names are entered into the list of mappings in place. */
  method EnterNames(ts: seq<Triple>, page: nat, names: seq<seq<Byte>>, decode: Decoder) returns (entries: seq<Mapping>)
    ensures entries == Named(ts, page, names, decode)
  {
    entries := seq(|ts|, j requires 0 <= j < |ts| => Mapped(ts[j], page));
    for j := 0 to |ts|
      invariant |entries| == |ts|
      invariant forall k | 0 <= k < j :: entries[k] == Named(ts, page, names, decode)[k]
      invariant forall k | j <= k < |ts| :: entries[k] == Mapped(ts[k], page)
    {
      if j < |names| {
        entries := entries[j := entries[j].(name := Some(decode(names[j])))];
      }
    }
  }

  method ReadStackEntries(desc: seq<Byte>, decode: Decoder) returns (entries: Option<seq<Mapping>>)
    ensures entries == StackEntries(desc, decode)
  {
    if |desc| < 16 {
      return None;
    }
    var count, page := Number(desc, 0, 8), Number(desc, 8, 8);
    var ts := ReadRows(TripleReader(desc), 16, 24, count);
    if ts.None? {
      return None;
    }
    var names := Split(Tail(desc, 16 + count * 24));
    var named := EnterNames(ts.value, page, names, decode);
    entries := Some(named);
  }

  method ReadNtFile(d: seq<Byte>, decode: Decoder) returns (entries: Option<seq<Mapping>>)
    ensures entries == StackFiles(d, decode)
  {
    if !IsCore(d) {
      return None;
    }
    var notes := NoteSegments(d);
    if notes.None? {
      return None;
    }
    var found := FindStack(HeadReader(d), notes.value);
    match found
    case Failed => entries := None;
    case Absent => entries := Some([]);
    case Found(desc, size) => entries := ReadStackEntries(Slice(d, desc, size), decode);
  }

  // ---- The memory script ----------------------------------------------------------------------------

  datatype File = File(start: nat, stop: nat, name: string)

  function Zipped(ts: seq<Triple>, names: seq<seq<Byte>>, decode: Decoder): (files: seq<File>)
    requires |ts| == |names|
    ensures |files| == |ts|
  {
    seq(|ts|, j requires 0 <= j < |ts| => File(ts[j].start, ts[j].stop, decode(names[j])))
  }

  function BothTables(ts: Option<seq<Triple>>, names: Option<seq<seq<Byte>>>, decode: Decoder): Option<seq<File>> {
    if ts.Some? && names.Some? && |ts.value| == |names.value| then Some(Zipped(ts.value, names.value, decode)) else None
  }

  function MemoryEntries(d: seq<Byte>, desc: nat, decode: Decoder): Option<seq<File>> {
    if desc + 16 > |d| then None else MemoryBody(d, desc, Number(d, desc, 8), decode)
  }

  function MemoryBody(d: seq<Byte>, desc: nat, count: nat, decode: Decoder): Option<seq<File>> {
    BothTables(Table(TripleReader(d), desc + 16, count), Table(NameReader(d), desc + 16 + count * 24, count), decode)
  }

  function MemoryFiles(d: seq<Byte>, decode: Decoder): Option<seq<File>> {
    if !IsCore(d) then None
    else match Table(PhdrReader(d, EntrySize(d)), TableOffset(d), EntryCount(d))
      case None => None
      case Some(headers) =>
        match SearchNotes(HeadReader(d), Present(Each(headers, AsNote)))
        case Failed => None
        case Absent => Some([])
        case Found(desc, _) => MemoryEntries(d, desc, decode)
  }

  /** One loop reads a triple and scans a name in turn. */
  method ReadPairs(triple: nat -> Option<Read<Triple>>, name: nat -> Option<Read<seq<Byte>>>, triples: nat, names: nat,
      count: nat, decode: Decoder)
    returns (files: Option<seq<File>>)
    requires forall o: nat :: triple(o).Some? ==> triple(o).value.at == o + 24
    ensures files == BothTables(Table(triple, triples, count), Table(name, names, count), decode)
  {
    ghost var ts: seq<Triple> := [];
    ghost var ns: seq<seq<Byte>> := [];
    var out: seq<File> := [];
    var at := names;
    BehindNothing(Table(triple, triples, count));
    BehindNothing(Table(name, names, count));
    for i := 0 to count
      invariant |ts| == |ns| && out == Zipped(ts, ns, decode)
      invariant Table(triple, triples, count) == Behind(ts, Table(triple, triples + i * 24, count - i))
      invariant Table(name, names, count) == Behind(ns, Table(name, at, count - i))
    {
      TableStep(ts, triple, triples + i * 24, count - i);
      TableStep(ns, name, at, count - i);
      var t := triple(triples + i * 24);
      if t.None? {
        return None;
      }
      var z := name(at);
      if z.None? {
        return None;
      }
      out := out + [File(t.value.value.start, t.value.value.stop, decode(z.value.value))];
      ts, ns := ts + [t.value.value], ns + [z.value.value];
      at := z.value.at;
    }
    assert ts + [] == ts && ns + [] == ns;
    files := Some(out);
  }

  method ReadMemoryEntries(d: seq<Byte>, desc: nat, decode: Decoder) returns (files: Option<seq<File>>)
    ensures files == MemoryEntries(d, desc, decode)
  {
    if desc + 16 > |d| {
      return None;
    }
    var count := Number(d, desc, 8);
    files := ReadPairs(TripleReader(d), NameReader(d), desc + 16, desc + 16 + count * 24, count, decode);
  }

  method MappedFiles(d: seq<Byte>, decode: Decoder) returns (files: Option<seq<File>>)
    ensures files == MemoryFiles(d, decode)
  {
    if !IsCore(d) {
      return None;
    }
    var headers := Phdrs(d);
    if headers.None? {
      return None;
    }
    var found := FindMemory(HeadReader(d), headers.value);
    match found
    case Failed => files := None;
    case Absent => files := Some([]);
    case Found(desc, _) => files := ReadMemoryEntries(d, desc, decode);
  }

  // ---- Agreement ------------------------------------------------------------------------------------

  /** A description inside the file that holds its triples and at least one NUL per mapping behind them. */
  predicate GoodDescription(d: seq<Byte>, desc: nat, size: nat) {
    desc + size <= |d| && 16 <= size && Complete(d, desc, size, Number(d, desc, 8))
  }

  predicate Complete(d: seq<Byte>, desc: nat, size: nat, count: nat)
    requires desc + size <= |d|
  {
    16 + count * 24 <= size && count <= Nuls(d[desc + 16 + count * 24..desc + size])
  }

  /** A core whose headers are whole and whose NT_FILE note, if it has one, is complete. */
  predicate WellFormed(d: seq<Byte>) {
    && IsCore(d)
    && var headers := Table(PhdrReader(d, EntrySize(d)), TableOffset(d), EntryCount(d));
       && headers.Some?
       && match SearchNotes(HeadReader(d), Present(Each(headers.value, AsNote)))
          case Failed => false
          case Absent => true
          case Found(desc, size) => GoodDescription(d, desc, size)
  }

  /** A number in a part of the file. */
  lemma NumberShift(d: seq<Byte>, desc: nat, size: nat, o: nat, width: nat)
    requires desc + size <= |d| && o + width <= size
    ensures Number(d[desc..desc + size], o, width) == Number(d, desc + o, width)
  {
    var a, b := d[desc..desc + size][o..o + width], d[desc + o..desc + o + width];
    assert |a| == |b| && forall k | 0 <= k < width :: a[k] == b[k];
    assert a == b;
  }

  lemma {:induction false} TriplesShift(d: seq<Byte>, desc: nat, size: nat, o: nat, count: nat)
    requires desc + size <= |d| && o + count * 24 <= size
    ensures Table(TripleReader(d[desc..desc + size]), o, count) == Table(TripleReader(d), desc + o, count)
    ensures Table(TripleReader(d), desc + o, count).Some? && |Table(TripleReader(d), desc + o, count).value| == count
    decreases count
  {
    if count > 0 {
      NumberShift(d, desc, size, o, 8);
      NumberShift(d, desc, size, o + 8, 8);
      NumberShift(d, desc, size, o + 16, 8);
      TriplesShift(d, desc, size, o + 24, count - 1);
    }
  }

  /** What the memory script keeps of a mapping. */
  function AsFile(m: Mapping): File { File(m.start, m.stop, if m.name.Some? then m.name.value else "") }

  /** The tables that both scripts take their mappings from. */
  lemma SameTables(d: seq<Byte>, desc: nat, size: nat, count: nat)
    requires desc + size <= |d| && Complete(d, desc, size, count)
    ensures var part, from := d[desc..desc + size], desc + 16 + count * 24;
            && Table(TripleReader(part), 16, count) == Table(TripleReader(d), desc + 16, count)
            && Table(TripleReader(d), desc + 16, count).Some?
            && |Table(TripleReader(d), desc + 16, count).value| == count
            && |Split(Tail(part, 16 + count * 24))| > count
            && Table(NameReader(d), from, count) == Some(Split(Tail(part, 16 + count * 24))[..count])
  {
    var part, from := d[desc..desc + size], desc + 16 + count * 24;
    TriplesShift(d, desc, size, 16, count);
    NamesAgree(d, from, desc + size, count);
    TailOfPart(d, desc, size, 16 + count * 24);
  }

  lemma TailOfPart(d: seq<Byte>, desc: nat, size: nat, o: nat)
    requires desc + size <= |d| && o <= size
    ensures Tail(d[desc..desc + size], o) == d[desc + o..desc + size]
  {
  }

  lemma NamedAsZipped(ts: seq<Triple>, page: nat, names: seq<seq<Byte>>, decode: Decoder)
    requires |names| >= |ts|
    ensures forall j | 0 <= j < |ts| :: Named(ts, page, names, decode)[j].name.Some?
    ensures Zipped(ts, names[..|ts|], decode) == Each(Named(ts, page, names, decode), AsFile)
  {
  }

  /** Both descriptions in terms of one list of triples and one list of names. */
  lemma BodyTables(d: seq<Byte>, desc: nat, size: nat, count: nat, page: nat, decode: Decoder)
      returns (ts: seq<Triple>, names: seq<seq<Byte>>)
    requires desc + size <= |d| && Complete(d, desc, size, count)
    ensures |ts| == count < |names|
    ensures StackBody(d[desc..desc + size], count, page, decode) == Some(Named(ts, page, names, decode))
    ensures MemoryBody(d, desc, count, decode) == Some(Zipped(ts, names[..count], decode))
  {
    SameTables(d, desc, size, count);
    ts := Table(TripleReader(d), desc + 16, count).value;
    names := Split(Tail(d[desc..desc + size], 16 + count * 24));
  }

  lemma BodiesAgree(d: seq<Byte>, desc: nat, size: nat, count: nat, page: nat, decode: Decoder)
    requires desc + size <= |d| && Complete(d, desc, size, count)
    ensures var stack := StackBody(d[desc..desc + size], count, page, decode);
            && stack.Some?
            && (forall j | 0 <= j < |stack.value| :: stack.value[j].name.Some?)
            && MemoryBody(d, desc, count, decode) == Some(Each(stack.value, AsFile))
  {
    var ts, names := BodyTables(d, desc, size, count, page, decode);
    NamedAsZipped(ts, page, names, decode);
  }

  lemma EntriesAgree(d: seq<Byte>, desc: nat, size: nat, decode: Decoder)
    requires GoodDescription(d, desc, size)
    ensures var stack := StackEntries(Slice(d, desc, size), decode);
            && stack.Some?
            && (forall j | 0 <= j < |stack.value| :: stack.value[j].name.Some?)
            && MemoryEntries(d, desc, decode) == Some(Each(stack.value, AsFile))
  {
    var part := d[desc..desc + size];
    assert Slice(d, desc, size) == part;
    NumberShift(d, desc, size, 0, 8);
    BodiesAgree(d, desc, size, Number(d, desc, 8), Number(part, 8, 8), decode);
  }

  /** On every well-formed core the two scripts find the same mappings, each with its name. */
  lemma ParsersAgree(d: seq<Byte>, decode: Decoder)
    requires WellFormed(d)
    ensures StackFiles(d, decode).Some?
    ensures forall j | 0 <= j < |StackFiles(d, decode).value| :: StackFiles(d, decode).value[j].name.Some?
    ensures MemoryFiles(d, decode) == Some(Each(StackFiles(d, decode).value, AsFile))
  {
    var size, offset, count := EntrySize(d), TableOffset(d), EntryCount(d);
    SameNotes(d, size, offset, count);
    var notes := Present(Each(Table(PhdrReader(d, size), offset, count).value, AsNote));
    match SearchNotes(HeadReader(d), notes)
    case Absent =>
    case Found(desc, n) => EntriesAgree(d, desc, n, decode);
  }

  // ---- A description as the kernel writes it --------------------------------------------------------

  datatype Area = Area(triple: Triple, name: seq<Byte>)

  predicate Fits(n: nat) { n < Power(256, 8) }

  predicate Writable(a: Area) {
    && Fits(a.triple.start) && Fits(a.triple.stop) && Fits(a.triple.page)
    && forall k | 0 <= k < |a.name| :: a.name[k] != 0
  }

  function TripleBytes(a: Area): seq<Byte> {
    Word(a.triple.start, 8) + (Word(a.triple.stop, 8) + Word(a.triple.page, 8))
  }

  function NameBytes(a: Area): seq<Byte> { a.name + [0] }

  /** The number of mappings, the page size, the triples, the names. */
  function DescriptionBytes(areas: seq<Area>, page: nat): seq<Byte> {
    Word(|areas|, 8) + (Word(page, 8) + (Joined(areas, TripleBytes) + Joined(areas, NameBytes)))
  }

  lemma NumberWritten(d: seq<Byte>, o: nat, n: nat)
    requires Fits(n) && At(d, o, Word(n, 8))
    ensures o + 8 <= |d| && Number(d, o, 8) == n
  {
    AtIsSlice(d, o, Word(n, 8));
    LittleWord(n, 8);
  }

  lemma TripleRead(d: seq<Byte>, o: nat, a: Area)
    requires Writable(a) && At(d, o, TripleBytes(a))
    ensures TripleAt(d, o) == Some(Read(a.triple, o + |TripleBytes(a)|))
  {
    var t := a.triple;
    AtParts(d, o, Word(t.start, 8), Word(t.stop, 8) + Word(t.page, 8));
    AtParts(d, o + 8, Word(t.stop, 8), Word(t.page, 8));
    NumberWritten(d, o, t.start);
    NumberWritten(d, o + 8, t.stop);
    NumberWritten(d, o + 16, t.page);
  }

  lemma NameRead(d: seq<Byte>, o: nat, a: Area)
    requires Writable(a) && At(d, o, NameBytes(a))
    ensures NameAt(d, o) == Some(Read(a.name, o + |NameBytes(a)|))
  {
    var n := |a.name|;
    AtParts(d, o, a.name, [0]);
    AtIsSlice(d, o, a.name);
    assert d[o..o + n] == a.name && d[o + n] == 0;
    assert forall k | o <= k < o + n :: d[k] == a.name[k - o];
  }

  function TripleOf(a: Area): Triple { a.triple }
  function NameOf(a: Area): seq<Byte> { a.name }

  lemma TripleReads(d: seq<Byte>, a: Area)
    requires Writable(a)
    ensures Reads(d, a, TripleBytes, TripleReader(d), TripleOf)
  {
    forall o: nat | At(d, o, TripleBytes(a))
      ensures TripleReader(d)(o) == Some(Read(TripleOf(a), o + |TripleBytes(a)|))
    {
      TripleRead(d, o, a);
    }
  }

  lemma NameReads(d: seq<Byte>, a: Area)
    requires Writable(a)
    ensures Reads(d, a, NameBytes, NameReader(d), NameOf)
  {
    forall o: nat | At(d, o, NameBytes(a))
      ensures NameReader(d)(o) == Some(Read(NameOf(a), o + |NameBytes(a)|))
    {
      NameRead(d, o, a);
    }
  }

  lemma TriplesRead(d: seq<Byte>, o: nat, areas: seq<Area>)
    requires (forall i | 0 <= i < |areas| :: Writable(areas[i])) && At(d, o, Joined(areas, TripleBytes))
    ensures Table(TripleReader(d), o, |areas|) == Some(Each(areas, TripleOf))
  {
    forall i | 0 <= i < |areas| ensures Reads(d, areas[i], TripleBytes, TripleReader(d), TripleOf) {
      TripleReads(d, areas[i]);
    }
    TableRead(d, o, areas, TripleBytes, TripleReader(d), TripleOf);
  }

  lemma NamesRead(d: seq<Byte>, o: nat, areas: seq<Area>)
    requires (forall i | 0 <= i < |areas| :: Writable(areas[i])) && At(d, o, Joined(areas, NameBytes))
    ensures Table(NameReader(d), o, |areas|) == Some(Each(areas, NameOf))
  {
    forall i | 0 <= i < |areas| ensures Reads(d, areas[i], NameBytes, NameReader(d), NameOf) {
      NameReads(d, areas[i]);
    }
    TableRead(d, o, areas, NameBytes, NameReader(d), NameOf);
  }

  lemma {:induction false} TriplesLength(areas: seq<Area>)
    ensures |Joined(areas, TripleBytes)| == 24 * |areas|
  {
    if areas != [] {
      TriplesLength(areas[1..]);
    }
  }

  function FilesOf(areas: seq<Area>, decode: Decoder): seq<File> {
    seq(|areas|, i requires 0 <= i < |areas| =>
        File(areas[i].triple.start, areas[i].triple.stop, decode(areas[i].name)))
  }

  lemma ZippedAreas(areas: seq<Area>, decode: Decoder)
    ensures BothTables(Some(Each(areas, TripleOf)), Some(Each(areas, NameOf)), decode) == Some(FilesOf(areas, decode))
  {
    assert Zipped(Each(areas, TripleOf), Each(areas, NameOf), decode) == FilesOf(areas, decode);
  }

  lemma BodyRead(d: seq<Byte>, desc: nat, areas: seq<Area>, decode: Decoder)
    requires forall i | 0 <= i < |areas| :: Writable(areas[i])
    requires At(d, desc + 16, Joined(areas, TripleBytes)) && At(d, desc + 16 + |areas| * 24, Joined(areas, NameBytes))
    ensures MemoryBody(d, desc, |areas|, decode) == Some(FilesOf(areas, decode))
  {
    var n := |areas|;
    assert Table(TripleReader(d), desc + 16, n) == Some(Each(areas, TripleOf)) by {
      TriplesRead(d, desc + 16, areas);
    }
    assert Table(NameReader(d), desc + 16 + n * 24, n) == Some(Each(areas, NameOf)) by {
      NamesRead(d, desc + 16 + n * 24, areas);
    }
    assert MemoryBody(d, desc, n, decode) == BothTables(Some(Each(areas, TripleOf)), Some(Each(areas, NameOf)), decode);
    ZippedAreas(areas, decode);
  }

  /** A description of mappings is read back as those mappings, in their order. */
  lemma DescriptionRead(d: seq<Byte>, desc: nat, areas: seq<Area>, page: nat, decode: Decoder)
    requires (forall i | 0 <= i < |areas| :: Writable(areas[i])) && Fits(|areas|) && Fits(page)
    requires At(d, desc, DescriptionBytes(areas, page))
    ensures MemoryEntries(d, desc, decode) == Some(FilesOf(areas, decode))
  {
    DescriptionParts(d, desc, areas, page);
    BodyRead(d, desc, areas, decode);
  }

  lemma {:induction false} NulsConcat(a: seq<Byte>, b: seq<Byte>)
    ensures Nuls(a + b) == Nuls(a) + Nuls(b)
  {
    if a == [] {
      assert a + b == b;
    } else {
      assert (a + b)[1..] == a[1..] + b;
      NulsConcat(a[1..], b);
    }
  }

  lemma {:induction false} NulsOfNames(areas: seq<Area>)
    requires forall i | 0 <= i < |areas| :: Writable(areas[i])
    ensures Nuls(Joined(areas, NameBytes)) == |areas|
  {
    if areas != [] {
      var name := areas[0].name;
      NoNuls(name);
      NulsConcat(name, [0]);
      assert Nuls([0]) == 1;
      NulsConcat(NameBytes(areas[0]), Joined(areas[1..], NameBytes));
      NulsOfNames(areas[1..]);
    }
  }

  /** Where the parts of a description stand. */
  lemma DescriptionParts(d: seq<Byte>, desc: nat, areas: seq<Area>, page: nat)
    requires Fits(|areas|) && Fits(page) && At(d, desc, DescriptionBytes(areas, page))
    ensures desc + 16 <= |d| && Number(d, desc, 8) == |areas| && Number(d, desc + 8, 8) == page
    ensures At(d, desc + 16, Joined(areas, TripleBytes)) && At(d, desc + 16 + |areas| * 24, Joined(areas, NameBytes))
    ensures |DescriptionBytes(areas, page)| == 16 + |areas| * 24 + |Joined(areas, NameBytes)|
  {
    var triples, names := Joined(areas, TripleBytes), Joined(areas, NameBytes);
    AtParts(d, desc, Word(|areas|, 8), Word(page, 8) + (triples + names));
    AtParts(d, desc + 8, Word(page, 8), triples + names);
    AtParts(d, desc + 16, triples, names);
    NumberWritten(d, desc, |areas|);
    NumberWritten(d, desc + 8, page);
    TriplesLength(areas);
  }

  /** A description as the kernel writes it is complete. */
  lemma DescriptionGood(d: seq<Byte>, desc: nat, areas: seq<Area>, page: nat)
    requires (forall i | 0 <= i < |areas| :: Writable(areas[i])) && Fits(|areas|) && Fits(page)
    requires At(d, desc, DescriptionBytes(areas, page))
    ensures GoodDescription(d, desc, |DescriptionBytes(areas, page)|)
  {
    var size, from, names := |DescriptionBytes(areas, page)|, desc + 16 + |areas| * 24, Joined(areas, NameBytes);
    DescriptionParts(d, desc, areas, page);
    AtIsSlice(d, from, names);
    NulsOfNames(areas);
    assert d[from..desc + size] == names;
  }

  /** The mappings as the stack script returns them. */
  function MappingsOf(areas: seq<Area>, page: nat, decode: Decoder): seq<Mapping> {
    seq(|areas|, i requires 0 <= i < |areas| =>
      Mapping(areas[i].triple.start, areas[i].triple.stop, areas[i].triple.page * page, Some(decode(areas[i].name))))
  }

  lemma NamedAreas(areas: seq<Area>, page: nat, names: seq<seq<Byte>>, decode: Decoder)
    requires |areas| <= |names| && names[..|areas|] == Each(areas, NameOf)
    ensures Named(Each(areas, TripleOf), page, names, decode) == MappingsOf(areas, page, decode)
  {
    assert forall j | 0 <= j < |areas| :: names[j] == names[..|areas|][j];
  }

  lemma SplitNames(d: seq<Byte>, from: nat, areas: seq<Area>)
    requires forall i | 0 <= i < |areas| :: Writable(areas[i])
    requires from <= |d| && At(d, from, Joined(areas, NameBytes)) && |areas| <= Nuls(Tail(d, from))
    ensures |areas| <= |Split(Tail(d, from))| && Split(Tail(d, from))[..|areas|] == Each(areas, NameOf)
  {
    NamesRead(d, from, areas);
    assert d[from..|d|] == Tail(d, from);
    NamesAgree(d, from, |d|, |areas|);
  }

  lemma StackBodyFrom(d: seq<Byte>, areas: seq<Area>, page: nat, decode: Decoder)
    requires Table(TripleReader(d), 16, |areas|) == Some(Each(areas, TripleOf))
    requires var names := Split(Tail(d, 16 + |areas| * 24));
             |areas| <= |names| && names[..|areas|] == Each(areas, NameOf)
    ensures StackBody(d, |areas|, page, decode) == Some(MappingsOf(areas, page, decode))
  {
    NamedAreas(areas, page, Split(Tail(d, 16 + |areas| * 24)), decode);
  }

  lemma StackEntriesOf(d: seq<Byte>, count: nat, page: nat, decode: Decoder)
    requires |d| >= 16 && Number(d, 0, 8) == count && Number(d, 8, 8) == page
    ensures StackEntries(d, decode) == StackBody(d, count, page, decode)
  {
  }

  lemma DescriptionNuls(areas: seq<Area>, page: nat)
    requires (forall i | 0 <= i < |areas| :: Writable(areas[i])) && Fits(|areas|) && Fits(page)
    ensures var d := DescriptionBytes(areas, page);
            16 + |areas| * 24 <= |d| && |areas| <= Nuls(Tail(d, 16 + |areas| * 24))
  {
    var d, from := DescriptionBytes(areas, page), 16 + |areas| * 24;
    AtIsSlice(d, 0, d);
    DescriptionParts(d, 0, areas, page);
    AtIsSlice(d, from, Joined(areas, NameBytes));
    assert Tail(d, from) == Joined(areas, NameBytes);
    NulsOfNames(areas);
  }

  lemma DescriptionNumbers(areas: seq<Area>, page: nat)
    requires Fits(|areas|) && Fits(page)
    ensures var d := DescriptionBytes(areas, page);
            |d| >= 16 && Number(d, 0, 8) == |areas| && Number(d, 8, 8) == page
  {
    var d := DescriptionBytes(areas, page);
    AtIsSlice(d, 0, d);
    DescriptionParts(d, 0, areas, page);
  }

  lemma DescriptionTriples(areas: seq<Area>, page: nat)
    requires (forall i | 0 <= i < |areas| :: Writable(areas[i])) && Fits(|areas|) && Fits(page)
    ensures Table(TripleReader(DescriptionBytes(areas, page)), 16, |areas|) == Some(Each(areas, TripleOf))
  {
    var d := DescriptionBytes(areas, page);
    AtIsSlice(d, 0, d);
    DescriptionParts(d, 0, areas, page);
    TriplesRead(d, 16, areas);
  }

  lemma DescriptionNames(areas: seq<Area>, page: nat)
    requires (forall i | 0 <= i < |areas| :: Writable(areas[i])) && Fits(|areas|) && Fits(page)
    ensures var names := Split(Tail(DescriptionBytes(areas, page), 16 + |areas| * 24));
            |areas| <= |names| && names[..|areas|] == Each(areas, NameOf)
  {
    var d := DescriptionBytes(areas, page);
    AtIsSlice(d, 0, d);
    DescriptionParts(d, 0, areas, page);
    DescriptionNuls(areas, page);
    SplitNames(d, 16 + |areas| * 24, areas);
  }

  /** A description of mappings is read back by the stack script as well, with file offsets in bytes. */
  lemma DescriptionReadStack(areas: seq<Area>, page: nat, decode: Decoder)
    requires (forall i | 0 <= i < |areas| :: Writable(areas[i])) && Fits(|areas|) && Fits(page)
    ensures StackEntries(DescriptionBytes(areas, page), decode) == Some(MappingsOf(areas, page, decode))
  {
    var d := DescriptionBytes(areas, page);
    DescriptionTriples(areas, page);
    DescriptionNames(areas, page);
    DescriptionNumbers(areas, page);
    StackBodyFrom(d, areas, page, decode);
    StackEntriesOf(d, |areas|, page, decode);
  }

  /** Once the walk has found a description that the kernel wrote, both scripts return its mappings. */
  lemma FoundDescription(d: seq<Byte>, desc: nat, areas: seq<Area>, page: nat, decode: Decoder)
    requires (forall i | 0 <= i < |areas| :: Writable(areas[i])) && Fits(|areas|) && Fits(page)
    requires IsCore(d) && Table(PhdrReader(d, EntrySize(d)), TableOffset(d), EntryCount(d)).Some?
    requires var headers := Table(PhdrReader(d, EntrySize(d)), TableOffset(d), EntryCount(d)).value;
             SearchNotes(HeadReader(d), Present(Each(headers, AsNote))) == Found(desc, |DescriptionBytes(areas, page)|)
    requires At(d, desc, DescriptionBytes(areas, page))
    ensures WellFormed(d)
    ensures StackFiles(d, decode) == Some(MappingsOf(areas, page, decode))
    ensures MemoryFiles(d, decode) == Some(FilesOf(areas, decode))
  {
    DescriptionGood(d, desc, areas, page);
    DescriptionRead(d, desc, areas, page, decode);
    DescriptionReadStack(areas, page, decode);
    SliceThere(d, desc, DescriptionBytes(areas, page));
    SameNotes(d, EntrySize(d), TableOffset(d), EntryCount(d));
  }

  /** Where the walk finds no note, both scripts return nothing. */
  lemma NothingFound(d: seq<Byte>, decode: Decoder)
    requires IsCore(d) && Table(PhdrReader(d, EntrySize(d)), TableOffset(d), EntryCount(d)).Some?
    requires var headers := Table(PhdrReader(d, EntrySize(d)), TableOffset(d), EntryCount(d)).value;
             SearchNotes(HeadReader(d), Present(Each(headers, AsNote))) == Absent
    ensures StackFiles(d, decode) == Some([]) && MemoryFiles(d, decode) == Some([])
  {
    SameNotes(d, EntrySize(d), TableOffset(d), EntryCount(d));
  }
}
