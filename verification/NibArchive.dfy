/**
 The NIBArchive reader: a cursor over the file's bytes, integers of variable length whose LAST byte
 has its high bit set, and the four tables (keys, classes, values, objects) that the header locates.
 */
module NibArchive {
  import opened Options
  import opened Bytes

  // ---- Variable-length integers ---------------------------------------------------------------------

  function Varint(n: nat): seq<Byte> {
    if n < 128 then [n + 128] else [n % 128] + Varint(n / 128)
  }

  /** Seven bits a byte, low bits first, up to the first byte with its high bit set. */
  function VarAt(d: seq<Byte>, o: nat): Option<Read<nat>>
    decreases |d| - o
  {
    if o >= |d| then None
    else if d[o] >= 128 then Some(Read(d[o] - 128, o + 1))
    else match VarAt(d, o + 1)
      case None => None
      case Some(r) => Some(Read(d[o] + 128 * r.value, r.at))
  }

  /** An encoded integer is read back wherever it stands, and the cursor ends right behind it. */
  lemma {:induction false} VarintRead(d: seq<Byte>, o: nat, n: nat)
    requires At(d, o, Varint(n))
    ensures VarAt(d, o) == Some(Read(n, o + |Varint(n)|))
    decreases n
  {
    if n >= 128 {
      AtParts(d, o, [n % 128], Varint(n / 128));
      VarintRead(d, o + 1, n / 128);
    }
  }

  /** Seven bits a byte, the lowest first; all bytes but the last have their high bit clear. */
  lemma {:induction false} VarintDigits(n: nat, i: nat)
    requires i < |Varint(n)|
    ensures Varint(n)[i] == n / Power(128, i) % 128 + if i == |Varint(n)| - 1 then 128 else 0
    ensures i == |Varint(n)| - 1 ==> n / Power(128, i) < 128
    decreases n
  {
    if i > 0 {
      VarintDigits(n / 128, i - 1);
      DivTwice(n, 128, Power(128, i - 1), Power(128, i));
    }
  }

  function Varints(ns: seq<nat>): seq<Byte> {
    if ns == [] then [] else Varint(ns[0]) + Varints(ns[1..])
  }

  /** `count` integers, one after the other, and the offset behind them. */
  function VarsAt(d: seq<Byte>, o: nat, count: nat): (r: Option<Read<seq<nat>>>)
    ensures r.Some? ==> |r.value.value| == count
    decreases count
  {
    if count == 0 then Some(Read([], o))
    else match VarAt(d, o)
      case None => None
      case Some(first) =>
        match VarsAt(d, first.at, count - 1)
        case None => None
        case Some(rest) => Some(Read([first.value] + rest.value, rest.at))
  }

  /** Any concatenation of integers is read back one by one, with the cursor exactly at its end. */
  lemma {:induction false} VarintsRead(d: seq<Byte>, o: nat, ns: seq<nat>)
    requires At(d, o, Varints(ns))
    ensures VarsAt(d, o, |ns|) == Some(Read(ns, o + |Varints(ns)|))
    decreases |ns|
  {
    if ns != [] {
      AtParts(d, o, Varint(ns[0]), Varints(ns[1..]));
      VarintRead(d, o, ns[0]);
      VarintsRead(d, o + |Varint(ns[0])|, ns[1..]);
      assert [ns[0]] + ns[1..] == ns;
    }
  }

  // ---- Fixed-size integers --------------------------------------------------------------------------

  /** Two's complement. */
  function Signed(v: nat, width: nat): int {
    if 2 * v >= Power(256, width) then v - Power(256, width) else v
  }

  function Unsigned(n: int, width: nat): nat { n % Power(256, width) }

  predicate FitsSigned(n: int, width: nat) {
    0 - Power(256, width) <= 2 * n < Power(256, width)
  }

  lemma SignedUnsigned(n: int, width: nat)
    requires FitsSigned(n, width)
    ensures Unsigned(n, width) < Power(256, width) && Signed(Unsigned(n, width), width) == n
  {
    WrapsOnce(n, Power(256, width));
  }

  lemma WrapsOnce(n: int, p: int)
    requires p > 0 && -p <= n < p
    ensures n % p == if n < 0 then n + p else n
  {
    var q, r := n / p, n % p;
    assert n == q * p + r;
    assert q == if n < 0 then -1 else 0;
  }

  // ---- Values ---------------------------------------------------------------------------------------

  /** A value as printed; floating-point numbers are kept as their bytes. */
  datatype Value =
    | Number(n: int)
    | Truth(b: bool)
    | Float(bits: seq<Byte>)
    | Data(bytes: seq<Byte>)
    | Nil
    | Object(index: nat)

  function NumberAt(d: seq<Byte>, o: nat, width: nat): Option<Read<Value>> {
    match WordAt(d, o, width)
    case None => None
    case Some(r) => Some(Read(Number(Signed(r.value, width)), r.at))
  }

  function FloatAt(d: seq<Byte>, o: nat, width: nat): Option<Read<Value>> {
    if o + width > |d| then None else Some(Read(Float(d[o..o + width]), o + width))
  }

  /** A length and that many bytes. */
  function BlockAt(d: seq<Byte>, o: nat): Option<Read<seq<Byte>>> {
    match VarAt(d, o)
    case None => None
    case Some(n) => Some(Read(Slice(d, n.at, n.value), n.at + n.value))
  }

  /** The value whose type byte stands at `o`. */
  function ValueAt(d: seq<Byte>, o: nat): Option<Read<Value>> {
    if o >= |d| then None
    else match d[o]
      case 0 => NumberAt(d, o + 1, 1)
      case 1 => NumberAt(d, o + 1, 2)
      case 2 => NumberAt(d, o + 1, 4)
      case 3 => NumberAt(d, o + 1, 8)
      case 4 => Some(Read(Truth(false), o + 1))
      case 5 => Some(Read(Truth(true), o + 1))
      case 6 => FloatAt(d, o + 1, 4)
      case 7 => FloatAt(d, o + 1, 8)
      case 8 => (match BlockAt(d, o + 1)
        case None => None
        case Some(r) => Some(Read(Data(r.value), r.at)))
      case 9 => Some(Read(Nil, o + 1))
      case 10 => (match WordAt(d, o + 1, 4)
        case None => None
        case Some(r) => Some(Read(Object(r.value), r.at)))
      case _ => None
  }

  /** A number may be stored in any width that holds it. */
  datatype Stored = Stored(value: Value, width: nat)

  predicate Storable(s: Stored) {
    match s.value
    case Number(n) => s.width in {1, 2, 4, 8} && FitsSigned(n, s.width)
    case Float(bits) => |bits| == 4 || |bits| == 8
    case Object(i) => i < Power(256, 4)
    case _ => true
  }

  function NumberType(width: nat): Byte {
    if width == 1 then 0 else if width == 2 then 1 else if width == 4 then 2 else 3
  }

  function ValueBytes(s: Stored): seq<Byte> {
    match s.value
    case Number(n) => [NumberType(s.width)] + Word(Unsigned(n, s.width), s.width)
    case Truth(b) => if b then [5] else [4]
    case Float(bits) => [if |bits| == 4 then 6 else 7] + bits
    case Data(bytes) => [8] + (Varint(|bytes|) + bytes)
    case Nil => [9]
    case Object(i) => [10] + Word(i, 4)
  }

  /** An integer in front of other bytes is read, and they stand behind it. */
  lemma VarThen(d: seq<Byte>, o: nat, n: nat, rest: seq<Byte>)
    requires At(d, o, Varint(n) + rest)
    ensures VarAt(d, o) == Some(Read(n, o + |Varint(n)|)) && At(d, o + |Varint(n)|, rest)
  {
    AtParts(d, o, Varint(n), rest);
    VarintRead(d, o, n);
  }

  lemma NumberRead(d: seq<Byte>, o: nat, n: int, width: nat)
    requires FitsSigned(n, width) && At(d, o, Word(Unsigned(n, width), width))
    ensures NumberAt(d, o, width) == Some(Read(Number(n), o + width))
  {
    SignedUnsigned(n, width);
    WordRead(d, o, Unsigned(n, width), width);
  }

  lemma FloatRead(d: seq<Byte>, o: nat, bits: seq<Byte>)
    requires At(d, o, bits)
    ensures FloatAt(d, o, |bits|) == Some(Read(Float(bits), o + |bits|))
  {
    AtIsSlice(d, o, bits);
  }

  lemma BlockRead(d: seq<Byte>, o: nat, bytes: seq<Byte>)
    requires At(d, o, Varint(|bytes|) + bytes)
    ensures BlockAt(d, o) == Some(Read(bytes, o + |Varint(|bytes|) + bytes|))
  {
    VarThen(d, o, |bytes|, bytes);
    SliceThere(d, o + |Varint(|bytes|)|, bytes);
  }

  lemma TypeThen(d: seq<Byte>, o: nat, t: Byte, rest: seq<Byte>)
    requires At(d, o, [t] + rest)
    ensures o < |d| && d[o] == t && At(d, o + 1, rest)
  {
    assert ([t] + rest)[1..] == rest;
  }

  lemma NumberValueRead(d: seq<Byte>, o: nat, n: int, width: nat)
    requires width in {1, 2, 4, 8} && FitsSigned(n, width)
    requires At(d, o, [NumberType(width)] + Word(Unsigned(n, width), width))
    ensures ValueAt(d, o) == Some(Read(Number(n), o + 1 + width))
  {
    TypeThen(d, o, NumberType(width), Word(Unsigned(n, width), width));
    NumberRead(d, o + 1, n, width);
  }

  lemma FloatValueRead(d: seq<Byte>, o: nat, bits: seq<Byte>)
    requires (|bits| == 4 || |bits| == 8) && At(d, o, [if |bits| == 4 then 6 else 7] + bits)
    ensures ValueAt(d, o) == Some(Read(Float(bits), o + 1 + |bits|))
  {
    TypeThen(d, o, if |bits| == 4 then 6 else 7, bits);
    FloatRead(d, o + 1, bits);
  }

  lemma DataValueRead(d: seq<Byte>, o: nat, bytes: seq<Byte>)
    requires At(d, o, [8] + (Varint(|bytes|) + bytes))
    ensures ValueAt(d, o) == Some(Read(Data(bytes), o + 1 + |Varint(|bytes|) + bytes|))
  {
    TypeThen(d, o, 8, Varint(|bytes|) + bytes);
    BlockRead(d, o + 1, bytes);
  }

  lemma ObjectValueRead(d: seq<Byte>, o: nat, i: nat)
    requires i < Power(256, 4) && At(d, o, [10] + Word(i, 4))
    ensures ValueAt(d, o) == Some(Read(Object(i), o + 5))
  {
    TypeThen(d, o, 10, Word(i, 4));
    WordRead(d, o + 1, i, 4);
  }

  lemma ValueRead(d: seq<Byte>, o: nat, s: Stored)
    requires Storable(s) && At(d, o, ValueBytes(s))
    ensures ValueAt(d, o) == Some(Read(s.value, o + |ValueBytes(s)|))
  {
    match s.value
    case Number(n) => NumberValueRead(d, o, n, s.width);
    case Float(bits) => FloatValueRead(d, o, bits);
    case Data(bytes) => DataValueRead(d, o, bytes);
    case Object(i) => ObjectValueRead(d, o, i);
    case _ =>
  }

  // ---- The four kinds of entries --------------------------------------------------------------------

  type Decoder = seq<Byte> -> string

  function KeyAt(d: seq<Byte>, o: nat, decode: Decoder): Option<Read<string>> {
    match BlockAt(d, o)
    case None => None
    case Some(r) => Some(Read(decode(r.value), r.at))
  }

  /** Without the NUL characters at its end. */
  function Strip(s: string): string {
    if s != [] && s[|s| - 1] == '\0' then Strip(s[..|s| - 1]) else s
  }

  /** Stripping takes all NUL characters from the end, and nothing else. */
  lemma {:induction false} StripsEnd(s: string)
    ensures var t := Strip(s);
            && |t| <= |s| && t == s[..|t|] && (forall i | |t| <= i < |s| :: s[i] == '\0')
            && (t == [] || t[|t| - 1] != '\0')
  {
    if s != [] && s[|s| - 1] == '\0' {
      StripsEnd(s[..|s| - 1]);
    }
  }

  /** The length of the name, a number of extra words, those words, the name. */
  function ClassAt(d: seq<Byte>, o: nat, decode: Decoder): Option<Read<string>> {
    match VarAt(d, o)
    case None => None
    case Some(n) =>
      match VarAt(d, n.at)
      case None => None
      case Some(extra) =>
        var from := extra.at + extra.value * 4;
        Some(Read(Strip(decode(Slice(d, from, n.value))), from + n.value))
  }

  datatype Entry = Entry(key: nat, value: Value)

  /** The number of the key, and the value. */
  function EntryAt(d: seq<Byte>, o: nat): Option<Read<Entry>> {
    match VarAt(d, o)
    case None => None
    case Some(k) =>
      match ValueAt(d, k.at)
      case None => None
      case Some(v) => Some(Read(Entry(k.value, v.value), v.at))
  }

  datatype Record = Record(class_: nat, first: nat, count: nat)

  function RecordAt(d: seq<Byte>, o: nat): Option<Read<Record>> {
    match VarAt(d, o)
    case None => None
    case Some(c) =>
      match VarAt(d, c.at)
      case None => None
      case Some(first) =>
        match VarAt(d, first.at)
        case None => None
        case Some(n) => Some(Read(Record(c.value, first.value, n.value), n.at))
  }

  function KeyReader(d: seq<Byte>, decode: Decoder): nat -> Option<Read<string>> { (o: nat) => KeyAt(d, o, decode) }
  function ClassReader(d: seq<Byte>, decode: Decoder): nat -> Option<Read<string>> { (o: nat) => ClassAt(d, o, decode) }
  function EntryReader(d: seq<Byte>): nat -> Option<Read<Entry>> { (o: nat) => EntryAt(d, o) }
  function RecordReader(d: seq<Byte>): nat -> Option<Read<Record>> { (o: nat) => RecordAt(d, o) }

  // ---- What the script makes of a file --------------------------------------------------------------

  const MAGIC: seq<Byte> := [78, 73, 66, 65, 114, 99, 104, 105, 118, 101]

  lemma Magic(i: nat)
    requires i < 10
    ensures |MAGIC| == |"NIBArchive"| == 10 && MAGIC[i] == "NIBArchive"[i] as int
  {
  }

  datatype Instance = Instance(class_: string, slots: seq<(string, Value)>)

  function Field(d: seq<Byte>, i: nat): nat
    requires |d| >= 50 && i < 10
  {
    Little(d[10 + 4 * i..14 + 4 * i])
  }

  /** Values under the names of their keys; an unknown key is an error. */
  function Keyed(keys: seq<string>, entries: seq<Entry>): Option<seq<(string, Value)>> {
    if forall i | 0 <= i < |entries| :: entries[i].key < |keys| then
      Some(seq(|entries|, i requires 0 <= i < |entries| && entries[i].key < |keys| =>
        (keys[entries[i].key], entries[i].value)))
    else None
  }

  function Instances(classes: seq<string>, slots: seq<(string, Value)>, records: seq<Record>): Option<seq<Instance>> {
    if forall i | 0 <= i < |records| :: records[i].class_ < |classes| then
      Some(seq(|records|, i requires 0 <= i < |records| && records[i].class_ < |classes| =>
                            Instance(classes[records[i].class_], Slice(slots, records[i].first, records[i].count))))
    else None
  }

  function Assembled(keys: Option<seq<string>>, classes: Option<seq<string>>, entries: Option<seq<Entry>>,
      records: Option<seq<Record>>): Option<seq<Instance>>
  {
    if keys.None? || classes.None? || entries.None? || records.None? then None
    else match Keyed(keys.value, entries.value)
      case None => None
      case Some(slots) => Instances(classes.value, slots, records.value)
  }

  /** The objects of a file, or nothing when it is no archive or a table is damaged. */
  function Parsed(d: seq<Byte>, decode: Decoder): Option<seq<Instance>> {
    if |d| < 50 || d[..10] != MAGIC then None
    else
      Assembled(
        Table(KeyReader(d, decode), Field(d, 5), Field(d, 4)),
        Table(ClassReader(d, decode), Field(d, 9), Field(d, 8)),
        Table(EntryReader(d), Field(d, 7), Field(d, 6)),
        Table(RecordReader(d), Field(d, 3), Field(d, 2)))
  }

  // ---- The reader -----------------------------------------------------------------------------------

  /** A read gave what stands there and left the cursor behind it, or failed where nothing can be read. */
  ghost predicate Took<T>(v: Option<T>, there: Option<Read<T>>, o: nat) {
    match there
    case None => v.None?
    case Some(r) => v == Some(r.value) && o == r.at
  }

  /** The class `R`: a cursor that every read advances, and that may run past the end. */
  class R {
    const d: seq<Byte>
    var o: nat

    constructor (d: seq<Byte>, o: nat)
      ensures this.d == d && this.o == o
    {
      this.d, this.o := d, o;
    }

    method U32() returns (v: Option<nat>)
      modifies this
      ensures Took(v, WordAt(d, old(o), 4), o)
    {
      if o + 4 > |d| {
        return None;
      }
      v := Some(Little(d[o..o + 4]));
      o := o + 4;
    }

    method Var() returns (v: Option<nat>)
      modifies this
      ensures Took(v, VarAt(d, old(o)), o)
    {
      var value: nat, shift: nat := 0, 0;
      assert Above(0, 0, VarAt(d, o)) == VarAt(d, o);
      while true
        invariant VarAt(d, old(o)) == Above(value, shift, VarAt(d, o))
        decreases |d| - o
      {
        if o >= |d| {
          return None;
        }
        var b := d[o];
        AboveNext(value, shift, d, o);
        o := o + 1;
        value, shift := value + b % 128 * Power(2, shift), shift + 7;
        if b >= 128 {
          return Some(value);
        }
      }
    }

    method Raw(n: nat) returns (v: seq<Byte>)
      modifies this
      ensures v == Slice(d, old(o), n) && o == old(o) + n
    {
      v := Slice(d, o, n);
      o := o + n;
    }
  }

  /** The integer whose low `shift` bits are `value` and whose other bits are still to be read. */
  function Above(value: nat, shift: nat, rest: Option<Read<nat>>): Option<Read<nat>> {
    match rest
    case None => None
    case Some(r) => Some(Read(value + r.value * Power(2, shift), r.at))
  }

  lemma PowerSeven(shift: nat)
    ensures Power(2, shift + 7) == 128 * Power(2, shift)
  {
    assert Power(2, shift + 7) == 2 * Power(2, shift + 6);
    assert Power(2, shift + 6) == 2 * Power(2, shift + 5);
    assert Power(2, shift + 5) == 2 * Power(2, shift + 4);
    assert Power(2, shift + 4) == 2 * Power(2, shift + 3);
    assert Power(2, shift + 3) == 2 * Power(2, shift + 2);
    assert Power(2, shift + 2) == 2 * Power(2, shift + 1);
  }

  lemma AboveNext(value: nat, shift: nat, d: seq<Byte>, o: nat)
    requires o < |d|
    ensures d[o] >= 128 ==> Above(value, shift, VarAt(d, o)) == Some(Read(value + d[o] % 128 * Power(2, shift), o + 1))
    ensures d[o] < 128 ==> Above(value, shift, VarAt(d, o)) ==
                           Above(value + d[o] % 128 * Power(2, shift), shift + 7, VarAt(d, o + 1))
  {
    if d[o] < 128 && VarAt(d, o + 1).Some? {
      PowerSeven(shift);
      var r := VarAt(d, o + 1).value;
      Distribute(d[o], r.value, Power(2, shift));
    }
  }

  lemma Distribute(low: nat, high: nat, p: nat)
    ensures (low + 128 * high) * p == low * p + high * (128 * p)
  {
  }

  method ReadNumber(r: R, width: nat) returns (v: Option<Value>)
    modifies r
    ensures Took(v, NumberAt(r.d, old(r.o), width), r.o)
  {
    if r.o + width > |r.d| {
      return None;
    }
    v := Some(Number(Signed(Little(r.d[r.o..r.o + width]), width)));
    r.o := r.o + width;
  }

  method ReadFloat(r: R, width: nat) returns (v: Option<Value>)
    modifies r
    ensures Took(v, FloatAt(r.d, old(r.o), width), r.o)
  {
    if r.o + width > |r.d| {
      return None;
    }
    v := Some(Float(r.d[r.o..r.o + width]));
    r.o := r.o + width;
  }

  /** A value: the byte of its type decides what follows. */
  method ReadValue(r: R) returns (v: Option<Value>)
    modifies r
    ensures Took(v, ValueAt(r.d, old(r.o)), r.o)
  {
    if r.o >= |r.d| {
      return None;
    }
    var t := r.d[r.o];
    r.o := r.o + 1;
    if t == 0 {
      v := ReadNumber(r, 1);
    } else if t == 1 {
      v := ReadNumber(r, 2);
    } else if t == 2 {
      v := ReadNumber(r, 4);
    } else if t == 3 {
      v := ReadNumber(r, 8);
    } else if t == 4 {
      v := Some(Truth(false));
    } else if t == 5 {
      v := Some(Truth(true));
    } else if t == 6 {
      v := ReadFloat(r, 4);
    } else if t == 7 {
      v := ReadFloat(r, 8);
    } else if t == 8 {
      var n := r.Var();
      if n.None? {
        return None;
      }
      var bytes := r.Raw(n.value);
      v := Some(Data(bytes));
    } else if t == 9 {
      v := Some(Nil);
    } else if t == 10 {
      var i := r.U32();
      v := if i.None? then None else Some(Object(i.value));
    } else {
      v := None;
    }
  }

  // ---- The table loops ------------------------------------------------------------------------------

  method ReadKey(r: R, decode: Decoder) returns (key: Option<string>)
    modifies r
    ensures Took(key, KeyAt(r.d, old(r.o), decode), r.o)
  {
    var n := r.Var();
    if n.None? {
      return None;
    }
    var raw := r.Raw(n.value);
    key := Some(decode(raw));
  }

  method ReadClass(r: R, decode: Decoder) returns (name: Option<string>)
    modifies r
    ensures Took(name, ClassAt(r.d, old(r.o), decode), r.o)
  {
    var n := r.Var();
    if n.None? {
      return None;
    }
    var extra := r.Var();
    if extra.None? {
      return None;
    }
    var _ := r.Raw(extra.value * 4);
    var raw := r.Raw(n.value);
    name := Some(Strip(decode(raw)));
  }

  method ReadEntry(r: R) returns (entry: Option<Entry>)
    modifies r
    ensures Took(entry, EntryAt(r.d, old(r.o)), r.o)
  {
    var k := r.Var();
    if k.None? {
      return None;
    }
    var v := ReadValue(r);
    entry := if v.None? then None else Some(Entry(k.value, v.value));
  }

  method ReadRecord(r: R) returns (record: Option<Record>)
    modifies r
    ensures Took(record, RecordAt(r.d, old(r.o)), r.o)
  {
    var c := r.Var();
    if c.None? {
      return None;
    }
    var first := r.Var();
    if first.None? {
      return None;
    }
    var n := r.Var();
    record := if n.None? then None else Some(Record(c.value, first.value, n.value));
  }

  lemma TookStep<T>(so: seq<T>, entry: nat -> Option<Read<T>>, o: nat, count: nat, item: Option<T>, o': nat)
    requires count > 0 && Took(item, entry(o), o')
    ensures item.None? ==> Behind(so, Table(entry, o, count)) == None
    ensures item.Some? ==> Behind(so, Table(entry, o, count)) == Behind(so + [item.value], Table(entry, o', count - 1))
  {
    TableStep(so, entry, o, count);
  }

  method ReadKeys(r: R, count: nat, decode: Decoder) returns (keys: Option<seq<string>>)
    modifies r
    ensures keys == Table(KeyReader(r.d, decode), old(r.o), count)
  {
    ghost var entry := KeyReader(r.d, decode);
    var so: seq<string> := [];
    BehindNothing(Table(entry, r.o, count));
    for i := 0 to count
      invariant Table(entry, old(r.o), count) == Behind(so, Table(entry, r.o, count - i))
    {
      ghost var o := r.o;
      assert entry(o) == KeyAt(r.d, o, decode);
      var item := ReadKey(r, decode);
      TookStep(so, entry, o, count - i, item, r.o);
      if item.None? {
        return None;
      }
      so := so + [item.value];
    }
    assert so + [] == so;
    keys := Some(so);
  }

  method ReadClasses(r: R, count: nat, decode: Decoder) returns (classes: Option<seq<string>>)
    modifies r
    ensures classes == Table(ClassReader(r.d, decode), old(r.o), count)
  {
    ghost var entry := ClassReader(r.d, decode);
    var so: seq<string> := [];
    BehindNothing(Table(entry, r.o, count));
    for i := 0 to count
      invariant Table(entry, old(r.o), count) == Behind(so, Table(entry, r.o, count - i))
    {
      ghost var o := r.o;
      assert entry(o) == ClassAt(r.d, o, decode);
      var item := ReadClass(r, decode);
      TookStep(so, entry, o, count - i, item, r.o);
      if item.None? {
        return None;
      }
      so := so + [item.value];
    }
    assert so + [] == so;
    classes := Some(so);
  }

  ghost predicate IsEntryReader(d: seq<Byte>, entry: nat -> Option<Read<Entry>>) {
    forall o: nat {:trigger EntryAt(d, o)} :: entry(o) == EntryAt(d, o)
  }

  method NextEntry(r: R, ghost entry: nat -> Option<Read<Entry>>) returns (item: Option<Entry>)
    requires IsEntryReader(r.d, entry)
    modifies r
    ensures Took(item, entry(old(r.o)), r.o)
  {
    item := ReadEntry(r);
  }

  /** The loop over the value table, said of any function that reads entries. */
  method EntryLoop(r: R, count: nat, ghost entry: nat -> Option<Read<Entry>>) returns (entries: Option<seq<Entry>>)
    requires IsEntryReader(r.d, entry)
    modifies r
    ensures entries == Table(entry, old(r.o), count)
  {
    var so: seq<Entry> := [];
    BehindNothing(Table(entry, r.o, count));
    for i := 0 to count
      invariant Table(entry, old(r.o), count) == Behind(so, Table(entry, r.o, count - i))
    {
      ghost var o := r.o;
      var item := NextEntry(r, entry);
      TookStep(so, entry, o, count - i, item, r.o);
      if item.None? {
        return None;
      }
      so := so + [item.value];
    }
    assert so + [] == so;
    entries := Some(so);
  }

  method ReadEntries(r: R, count: nat) returns (entries: Option<seq<Entry>>)
    modifies r
    ensures entries == Table(EntryReader(r.d), old(r.o), count)
  {
    entries := EntryLoop(r, count, EntryReader(r.d));
  }

  method ReadRecords(r: R, count: nat) returns (records: Option<seq<Record>>)
    modifies r
    ensures records == Table(RecordReader(r.d), old(r.o), count)
  {
    ghost var entry := RecordReader(r.d);
    var so: seq<Record> := [];
    BehindNothing(Table(entry, r.o, count));
    for i := 0 to count
      invariant Table(entry, old(r.o), count) == Behind(so, Table(entry, r.o, count - i))
    {
      ghost var o := r.o;
      assert entry(o) == RecordAt(r.d, o);
      var item := ReadRecord(r);
      TookStep(so, entry, o, count - i, item, r.o);
      if item.None? {
        return None;
      }
      so := so + [item.value];
    }
    assert so + [] == so;
    records := Some(so);
  }

  /** The script's `parse`: a new cursor for every table. */
  method Parse(d: seq<Byte>, decode: Decoder) returns (objects: Option<seq<Instance>>)
    ensures objects == Parsed(d, decode)
  {
    if |d| < 50 || d[..10] != MAGIC {
      return None;
    }
    var r := new R(d, Field(d, 5));
    var keys := ReadKeys(r, Field(d, 4), decode);
    r := new R(d, Field(d, 9));
    var classes := ReadClasses(r, Field(d, 8), decode);
    r := new R(d, Field(d, 7));
    var entries := ReadEntries(r, Field(d, 6));
    r := new R(d, Field(d, 3));
    var records := ReadRecords(r, Field(d, 2));
    objects := Assembled(keys, classes, entries, records);
  }

  // ---- Laying an archive out ------------------------------------------------------------------------

  datatype Class = Class(name: seq<Byte>, extra: seq<nat>)

  datatype Placed = Placed(key: nat, stored: Stored)

  datatype Archive = Archive(keys: seq<seq<Byte>>, classes: seq<Class>, entries: seq<Placed>, records: seq<Record>)

  /** Keys and classes exist and values can be stored; the slots of an object may run past the table. */
  predicate Sound(a: Archive) {
    && (forall i | 0 <= i < |a.entries| :: a.entries[i].key < |a.keys| && Storable(a.entries[i].stored))
    && (forall i | 0 <= i < |a.records| :: a.records[i].class_ < |a.classes|)
  }

  function KeyBytes(key: seq<Byte>): seq<Byte> { Varint(|key|) + key }
  function ClassBytes(c: Class): seq<Byte> { Varint(|c.name|) + (Varint(|c.extra|) + (Words(c.extra) + c.name)) }
  function EntryBytes(e: Placed): seq<Byte> { Varint(e.key) + ValueBytes(e.stored) }
  function RecordBytes(r: Record): seq<Byte> { Varint(r.class_) + (Varint(r.first) + Varint(r.count)) }

  lemma KeyRead(d: seq<Byte>, o: nat, key: seq<Byte>, decode: Decoder)
    requires At(d, o, KeyBytes(key))
    ensures KeyAt(d, o, decode) == Some(Read(decode(key), o + |KeyBytes(key)|))
  {
    BlockRead(d, o, key);
  }

  lemma NameThere(d: seq<Byte>, o: nat, c: Class)
    requires At(d, o, Words(c.extra) + c.name)
    ensures Slice(d, o + |c.extra| * 4, |c.name|) == c.name
  {
    AtParts(d, o, Words(c.extra), c.name);
    SliceThere(d, o + |Words(c.extra)|, c.name);
  }

  lemma ClassPieces(d: seq<Byte>, o: nat, c: Class, o1: nat, o2: nat)
    requires At(d, o, ClassBytes(c))
    requires o1 == o + |Varint(|c.name|)| && o2 == o1 + |Varint(|c.extra|)|
    ensures VarAt(d, o) == Some(Read(|c.name|, o1)) && VarAt(d, o1) == Some(Read(|c.extra|, o2))
    ensures Slice(d, o2 + |c.extra| * 4, |c.name|) == c.name
    ensures o2 + |c.extra| * 4 + |c.name| == o + |ClassBytes(c)|
  {
    VarThen(d, o, |c.name|, Varint(|c.extra|) + (Words(c.extra) + c.name));
    VarThen(d, o1, |c.extra|, Words(c.extra) + c.name);
    NameThere(d, o2, c);
  }

  lemma ClassRead(d: seq<Byte>, o: nat, c: Class, decode: Decoder)
    requires At(d, o, ClassBytes(c))
    ensures ClassAt(d, o, decode) == Some(Read(Strip(decode(c.name)), o + |ClassBytes(c)|))
  {
    var o1 := o + |Varint(|c.name|)|;
    var o2 := o1 + |Varint(|c.extra|)|;
    ClassPieces(d, o, c, o1, o2);
  }

  lemma EntryRead(d: seq<Byte>, o: nat, e: Placed)
    requires Storable(e.stored) && At(d, o, EntryBytes(e))
    ensures EntryAt(d, o) == Some(Read(Entry(e.key, e.stored.value), o + |EntryBytes(e)|))
  {
    var o1 := o + |Varint(e.key)|;
    VarThen(d, o, e.key, ValueBytes(e.stored));
    assert ValueAt(d, o1) == Some(Read(e.stored.value, o + |EntryBytes(e)|)) by {
      ValueRead(d, o1, e.stored);
    }
  }

  lemma ThreeVars(d: seq<Byte>, o: nat, a: nat, b: nat, c: nat)
    requires At(d, o, Varint(a) + (Varint(b) + Varint(c)))
    ensures var o1 := o + |Varint(a)|;
            var o2 := o1 + |Varint(b)|;
            && VarAt(d, o) == Some(Read(a, o1)) && VarAt(d, o1) == Some(Read(b, o2))
            && VarAt(d, o2) == Some(Read(c, o2 + |Varint(c)|))
  {
    var o1 := o + |Varint(a)|;
    VarThen(d, o, a, Varint(b) + Varint(c));
    VarThen(d, o1, b, Varint(c));
    VarintRead(d, o1 + |Varint(b)|, c);
  }

  lemma RecordRead(d: seq<Byte>, o: nat, r: Record)
    requires At(d, o, RecordBytes(r))
    ensures RecordAt(d, o) == Some(Read(r, o + |RecordBytes(r)|))
  {
    ThreeVars(d, o, r.class_, r.first, r.count);
  }

  /** The header says how many entries a table has and where its bytes stand. */
  ghost predicate TableAt(d: seq<Byte>, i: nat, count: nat, piece: seq<Byte>) {
    |d| >= 50 && i < 9 && Field(d, i) == count && At(d, Field(d, i + 1), piece)
  }

  /** The file is an archive whose header leads to the four tables, wherever they stand. */
  ghost predicate Holds(d: seq<Byte>, a: Archive) {
    && |d| >= 50 && d[..10] == MAGIC
    && TableAt(d, 2, |a.records|, Joined(a.records, RecordBytes))
    && TableAt(d, 4, |a.keys|, Joined(a.keys, KeyBytes))
    && TableAt(d, 6, |a.entries|, Joined(a.entries, EntryBytes))
    && TableAt(d, 8, |a.classes|, Joined(a.classes, ClassBytes))
  }

  /** The objects of an archive: class names, and slots under the names of their keys. */
  function Contents(a: Archive, decode: Decoder): seq<Instance>
    requires Sound(a)
  {
    var slots := seq(|a.entries|, i requires 0 <= i < |a.entries| && a.entries[i].key < |a.keys| =>
                       (decode(a.keys[a.entries[i].key]), a.entries[i].stored.value));
    seq(|a.records|, i requires 0 <= i < |a.records| && a.records[i].class_ < |a.classes| =>
      Instance(Strip(decode(a.classes[a.records[i].class_].name)),
          Slice(slots, a.records[i].first, a.records[i].count)))
  }

  lemma KeyReads(d: seq<Byte>, key: seq<Byte>, decode: Decoder)
    ensures Reads(d, key, KeyBytes, KeyReader(d, decode), decode)
  {
    forall o: nat | At(d, o, KeyBytes(key))
      ensures KeyReader(d, decode)(o) == Some(Read(decode(key), o + |KeyBytes(key)|))
    {
      KeyRead(d, o, key, decode);
    }
  }

  lemma KeysRead(d: seq<Byte>, o: nat, keys: seq<seq<Byte>>, decode: Decoder)
    requires At(d, o, Joined(keys, KeyBytes))
    ensures Table(KeyReader(d, decode), o, |keys|) == Some(Each(keys, decode))
  {
    forall i | 0 <= i < |keys| ensures Reads(d, keys[i], KeyBytes, KeyReader(d, decode), decode) {
      KeyReads(d, keys[i], decode);
    }
    TableRead(d, o, keys, KeyBytes, KeyReader(d, decode), decode);
  }

  function NameOf(decode: Decoder): Class -> string { (c: Class) => Strip(decode(c.name)) }

  lemma ClassReads(d: seq<Byte>, c: Class, decode: Decoder)
    ensures Reads(d, c, ClassBytes, ClassReader(d, decode), NameOf(decode))
  {
    forall o: nat | At(d, o, ClassBytes(c))
      ensures ClassReader(d, decode)(o) == Some(Read(NameOf(decode)(c), o + |ClassBytes(c)|))
    {
      ClassRead(d, o, c, decode);
    }
  }

  lemma ClassesRead(d: seq<Byte>, o: nat, classes: seq<Class>, decode: Decoder)
    requires At(d, o, Joined(classes, ClassBytes))
    ensures Table(ClassReader(d, decode), o, |classes|) == Some(Each(classes, NameOf(decode)))
  {
    forall i | 0 <= i < |classes| ensures Reads(d, classes[i], ClassBytes, ClassReader(d, decode), NameOf(decode)) {
      ClassReads(d, classes[i], decode);
    }
    TableRead(d, o, classes, ClassBytes, ClassReader(d, decode), NameOf(decode));
  }

  function Plain(e: Placed): Entry { Entry(e.key, e.stored.value) }

  lemma EntryReads(d: seq<Byte>, e: Placed)
    requires Storable(e.stored)
    ensures Reads(d, e, EntryBytes, EntryReader(d), Plain)
  {
    forall o: nat | At(d, o, EntryBytes(e))
      ensures EntryReader(d)(o) == Some(Read(Plain(e), o + |EntryBytes(e)|))
    {
      EntryRead(d, o, e);
    }
  }

  lemma EntriesRead(d: seq<Byte>, o: nat, entries: seq<Placed>)
    requires At(d, o, Joined(entries, EntryBytes)) && forall i | 0 <= i < |entries| :: Storable(entries[i].stored)
    ensures Table(EntryReader(d), o, |entries|) == Some(Each(entries, Plain))
  {
    forall i | 0 <= i < |entries| ensures Reads(d, entries[i], EntryBytes, EntryReader(d), Plain) {
      EntryReads(d, entries[i]);
    }
    TableRead(d, o, entries, EntryBytes, EntryReader(d), Plain);
  }

  function Itself(r: Record): Record { r }

  lemma RecordReads(d: seq<Byte>, r: Record)
    ensures Reads(d, r, RecordBytes, RecordReader(d), Itself)
  {
    forall o: nat | At(d, o, RecordBytes(r))
      ensures RecordReader(d)(o) == Some(Read(Itself(r), o + |RecordBytes(r)|))
    {
      RecordRead(d, o, r);
    }
  }

  lemma RecordsRead(d: seq<Byte>, o: nat, records: seq<Record>)
    requires At(d, o, Joined(records, RecordBytes))
    ensures Table(RecordReader(d), o, |records|) == Some(records)
  {
    forall i | 0 <= i < |records| ensures Reads(d, records[i], RecordBytes, RecordReader(d), Itself) {
      RecordReads(d, records[i]);
    }
    TableRead(d, o, records, RecordBytes, RecordReader(d), Itself);
    assert Each(records, Itself) == records;
  }

  /** Every file that holds an archive is parsed as that archive's objects. */
  lemma ArchiveParsed(d: seq<Byte>, a: Archive, decode: Decoder)
    requires Sound(a) && Holds(d, a)
    ensures Parsed(d, decode) == Some(Contents(a, decode))
  {
    KeysRead(d, Field(d, 5), a.keys, decode);
    ClassesRead(d, Field(d, 9), a.classes, decode);
    EntriesRead(d, Field(d, 7), a.entries);
    RecordsRead(d, Field(d, 3), a.records);
    AssembledContents(a, decode);
  }

  /** A file whose tables name a key or a class that does not exist is refused. */
  lemma ArchiveRefused(d: seq<Byte>, a: Archive, decode: Decoder)
    requires Holds(d, a) && forall i | 0 <= i < |a.entries| :: Storable(a.entries[i].stored)
    requires (exists i | 0 <= i < |a.entries| :: a.entries[i].key >= |a.keys|) ||
             (exists i | 0 <= i < |a.records| :: a.records[i].class_ >= |a.classes|)
    ensures Parsed(d, decode) == None
  {
    KeysRead(d, Field(d, 5), a.keys, decode);
    ClassesRead(d, Field(d, 9), a.classes, decode);
    EntriesRead(d, Field(d, 7), a.entries);
    RecordsRead(d, Field(d, 3), a.records);
    var entries := Each(a.entries, Plain);
    assert forall i | 0 <= i < |entries| :: entries[i].key == a.entries[i].key;
  }

  lemma AssembledContents(a: Archive, decode: Decoder)
    requires Sound(a)
    ensures Assembled(Some(Each(a.keys, decode)), Some(Each(a.classes, NameOf(decode))), Some(Each(a.entries, Plain)),
            Some(a.records))
            == Some(Contents(a, decode))
  {
    var keys, classes, entries := Each(a.keys, decode), Each(a.classes, NameOf(decode)), Each(a.entries, Plain);
    var slots := seq(|a.entries|, i requires 0 <= i < |a.entries| && a.entries[i].key < |a.keys| =>
                       (decode(a.keys[a.entries[i].key]), a.entries[i].stored.value));
    assert forall i | 0 <= i < |entries| :: entries[i].key == a.entries[i].key;
    assert Keyed(keys, entries).value == slots;
    assert Instances(classes, slots, a.records).value == Contents(a, decode);
  }

  function Tables(a: Archive): seq<Byte> {
    Joined(a.records, RecordBytes)
        + (Joined(a.keys, KeyBytes) + (Joined(a.entries, EntryBytes) + Joined(a.classes, ClassBytes)))
  }

  function Fields(a: Archive, major: nat, minor: nat): (f: seq<nat>)
    ensures |f| == 10
  {
    [major, minor, |a.records|, 50, |a.keys|, KeysFrom(a), |a.entries|, ValuesFrom(a), |a.classes|, ClassesFrom(a)]
  }

  function KeysFrom(a: Archive): nat { 50 + |Joined(a.records, RecordBytes)| }
  function ValuesFrom(a: Archive): nat { KeysFrom(a) + |Joined(a.keys, KeyBytes)| }
  function ClassesFrom(a: Archive): nat { ValuesFrom(a) + |Joined(a.entries, EntryBytes)| }

  /** One file for an archive: the header, then objects, keys, values and classes. */
  function LaidOut(a: Archive, major: nat, minor: nat): seq<Byte> {
    MAGIC + Words(Fields(a, major, minor)) + Tables(a)
  }

  lemma {:induction false} JoinedLength<S>(items: seq<S>, bytes: S -> seq<Byte>)
    requires forall i | 0 <= i < |items| :: |bytes(items[i])| > 0
    ensures |items| <= |Joined(items, bytes)|
  {
    if items != [] {
      JoinedLength(items[1..], bytes);
    }
  }

  lemma VarintLength(n: nat)
    ensures |Varint(n)| > 0
  {
  }

  lemma CountsFit(a: Archive)
    ensures |a.records| + |a.keys| + |a.entries| + |a.classes| <= |Tables(a)|
  {
    forall r: Record ensures |RecordBytes(r)| > 0 { VarintLength(r.class_); }
    forall k: seq<Byte> ensures |KeyBytes(k)| > 0 { VarintLength(|k|); }
    forall e: Placed ensures |EntryBytes(e)| > 0 { VarintLength(e.key); }
    forall c: Class ensures |ClassBytes(c)| > 0 { VarintLength(|c.name|); }
    JoinedLength(a.records, RecordBytes);
    JoinedLength(a.keys, KeyBytes);
    JoinedLength(a.entries, EntryBytes);
    JoinedLength(a.classes, ClassBytes);
  }

  lemma FieldRead(d: seq<Byte>, fields: seq<nat>, i: nat)
    requires |d| >= 50 && |fields| == 10 && At(d, 10, Words(fields)) && i < 10 && fields[i] < Power(256, 4)
    ensures Field(d, i) == fields[i]
  {
    WordsAt(d, 10, fields, i);
    AtIsSlice(d, 10 + 4 * i, Word(fields[i], 4));
    LittleWord(fields[i], 4);
  }

  lemma FourParts(d: seq<Byte>, o: nat, a: seq<Byte>, b: seq<Byte>, c: seq<Byte>, e: seq<Byte>)
    requires At(d, o, a + (b + (c + e)))
    ensures At(d, o, a) && At(d, o + |a|, b) && At(d, o + |a| + |b|, c) && At(d, o + |a| + |b| + |c|, e)
  {
    AtParts(d, o, a, b + (c + e));
    AtParts(d, o + |a|, b, c + e);
    AtParts(d, o + |a| + |b|, c, e);
  }

  lemma FieldsFit(a: Archive, major: nat, minor: nat, limit: nat)
    requires 50 + |Tables(a)| < limit
    ensures forall i | 2 <= i < 10 :: Fields(a, major, minor)[i] < limit
  {
    CountsFit(a);
  }

  lemma TableThere(d: seq<Byte>, f: seq<nat>, i: nat, piece: seq<Byte>)
    requires |d| >= 50 && |f| == 10 && At(d, 10, Words(f)) && 2 <= i < 9 && f[i] < Power(256, 4)
             && f[i + 1] < Power(256, 4)
    requires At(d, f[i + 1], piece)
    ensures TableAt(d, i, f[i], piece)
  {
    FieldRead(d, f, i);
    FieldRead(d, f, i + 1);
  }

  lemma FourTables(d: seq<Byte>, f: seq<nat>, o: seq<Byte>, k: seq<Byte>, e: seq<Byte>, c: seq<Byte>)
    requires |d| >= 50 && |f| == 10 && At(d, 10, Words(f)) && At(d, 50, o + (k + (e + c)))
    requires forall i | 2 <= i < 10 :: f[i] < Power(256, 4)
    requires f[3] == 50 && f[5] == 50 + |o| && f[7] == 50 + |o| + |k| && f[9] == 50 + |o| + |k| + |e|
    ensures TableAt(d, 2, f[2], o) && TableAt(d, 4, f[4], k) && TableAt(d, 6, f[6], e) && TableAt(d, 8, f[8], c)
  {
    FourParts(d, 50, o, k, e, c);
    TableThere(d, f, 2, o);
    TableThere(d, f, 4, k);
    TableThere(d, f, 6, e);
    TableThere(d, f, 8, c);
  }

  /** The file is one that holds the archive, as long as its numbers fit their four bytes. */
  lemma LaidOutHolds(a: Archive, major: nat, minor: nat)
    requires |LaidOut(a, major, minor)| < Power(256, 4)
    ensures Holds(LaidOut(a, major, minor), a)
  {
    var o, k := Joined(a.records, RecordBytes), Joined(a.keys, KeyBytes);
    var e, c := Joined(a.entries, EntryBytes), Joined(a.classes, ClassBytes);
    var d, f := LaidOut(a, major, minor), Fields(a, major, minor);
    HeaderAndTables(f, Tables(a));
    FieldsFit(a, major, minor, Power(256, 4));
    FourTables(d, f, o, k, e, c);
  }

  lemma HeaderAndTables(fields: seq<nat>, tables: seq<Byte>)
    requires |fields| == 10
    ensures var d := MAGIC + Words(fields) + tables;
            |d| >= 50 && d[..10] == MAGIC && At(d, 10, Words(fields)) && At(d, 50, tables)
  {
    var d := MAGIC + Words(fields) + tables;
    assert d[..10] == MAGIC && d[10..50] == Words(fields) && d[50..] == tables;
    AtIsSlice(d, 10, Words(fields));
    AtIsSlice(d, 50, tables);
  }

  /** Laying an archive out and parsing the file gives the archive's objects. */
  lemma ArchiveRoundTrip(a: Archive, major: nat, minor: nat, decode: Decoder)
    requires Sound(a) && |LaidOut(a, major, minor)| < Power(256, 4)
    ensures Parsed(LaidOut(a, major, minor), decode) == Some(Contents(a, decode))
  {
    LaidOutHolds(a, major, minor);
    ArchiveParsed(LaidOut(a, major, minor), a, decode);
  }
}
