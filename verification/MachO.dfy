/**
 Addresses in a Mach-O image: file offset to address (the symbolizer), address to file offset (the
 disassembler), and the nearest preceding symbol, found by bisection in three scripts.
 */
module MachO {
  import opened Options

  // ---- Segments -------------------------------------------------------------------------------------

  datatype Seg = Seg(vmaddr: nat, vmsize: nat, fileoff: nat, filesize: nat)

  predicate Mapped(s: Seg, va: int) { s.vmaddr <= va < s.vmaddr + s.vmsize }
  predicate Backed(s: Seg, fo: int) { s.fileoff <= fo < s.fileoff + s.filesize }

  /** The address of a file offset: the first segment whose part of the file holds it decides. */
  function AddressOf(segs: seq<Seg>, fo: int): Option<int> {
    if segs == [] then None
    else if Backed(segs[0], fo) then Some(segs[0].vmaddr + (fo - segs[0].fileoff))
    else AddressOf(segs[1..], fo)
  }

  /** The file offset of an address, in a slice at `base`: the first segment whose range holds it decides. */
  function OffsetOf(segs: seq<Seg>, base: nat, va: int): Option<int> {
    if segs == [] then None
    else if Mapped(segs[0], va) then Some(base + segs[0].fileoff + (va - segs[0].vmaddr))
    else OffsetOf(segs[1..], base, va)
  }

  /** One segment: offset `k` into it on either side is offset `k` into it on the other, within its sizes. */
  lemma OneSegment(s: Seg, base: nat, k: int)
    ensures AddressOf([s], s.fileoff + k) == if 0 <= k < s.filesize then Some(s.vmaddr + k) else None
    ensures OffsetOf([s], base, s.vmaddr + k) == if 0 <= k < s.vmsize then Some(base + s.fileoff + k) else None
  {
  }

  /** Segments in front that do not hold it do not count. */
  lemma {:induction false} SegmentsInFront(a: seq<Seg>, b: seq<Seg>, base: nat, n: int)
    ensures (forall i | 0 <= i < |a| :: !Backed(a[i], n)) ==> AddressOf(a + b, n) == AddressOf(b, n)
    ensures (forall i | 0 <= i < |a| :: !Mapped(a[i], n)) ==> OffsetOf(a + b, base, n) == OffsetOf(b, base, n)
  {
    if a == [] {
      assert a + b == b;
    } else {
      SegmentsInFront(a[1..], b, base, n);
      assert (a + b)[1..] == a[1..] + b;
    }
  }

  /** The symbolizer's search. */
  method FileOffToVmaddr(segs: seq<Seg>, fo: int) returns (va: Option<int>)
    ensures va == AddressOf(segs, fo)
  {
    for i := 0 to |segs|
      invariant AddressOf(segs, fo) == AddressOf(segs[i..], fo)
    {
      if segs[i].fileoff <= fo < segs[i].fileoff + segs[i].filesize {
        return Some(segs[i].vmaddr + (fo - segs[i].fileoff));
      }
    }
    va := None;
  }

  /**
   The disassembler's search and clamp: what is shown starts at the address' byte and ends `wanted`
   bytes on, or where the segment's part of the file ends if that comes first.
   */
  method Locate(segs: seq<Seg>, base: nat, va: int, wanted: int) returns (found: Option<(int, int)>)
    ensures found.None? <==> OffsetOf(segs, base, va).None?
    ensures found.Some? ==> OffsetOf(segs, base, va) == Some(found.value.0)
    ensures found.None? <==> FirstMapped(segs, va).None?
    ensures found.Some? ==> Clamped(segs[FirstMapped(segs, va).value], base, wanted, found.value.0, found.value.1)
  {
    for i := 0 to |segs|
      invariant OffsetOf(segs, base, va) == OffsetOf(segs[i..], base, va)
      invariant forall j | 0 <= j < i :: !Mapped(segs[j], va)
    {
      var s := segs[i];
      if s.vmaddr <= va < s.vmaddr + s.vmsize {
        var offset, count := base + s.fileoff + (va - s.vmaddr), wanted;
        if offset + count > base + s.fileoff + s.filesize {
          count := base + s.fileoff + s.filesize - offset;
        }
        assert FirstMapped(segs, va) == Some(i);
        return Some((offset, count));
      }
    }
    found := None;
  }

  /** The segment that decides about an address: the first one whose range holds it. */
  function FirstMapped(segs: seq<Seg>, va: int): (k: Option<nat>)
    ensures k.Some? ==>
              && k.value < |segs| && Mapped(segs[k.value], va)
              && forall j | 0 <= j < k.value :: !Mapped(segs[j], va)
    ensures k.None? ==> forall j | 0 <= j < |segs| :: !Mapped(segs[j], va)
  {
    if segs == [] then None
    else if Mapped(segs[0], va) then Some(0)
    else match FirstMapped(segs[1..], va)
      case None => None
      case Some(k) => Some(k + 1)
  }

  predicate Clamped(s: Seg, base: nat, wanted: int, offset: int, count: int) {
    var end := base + s.fileoff + s.filesize;
    offset + count == if offset + wanted <= end then offset + wanted else end
  }

  /** No address lies in two segments. */
  ghost predicate Disjoint(segs: seq<Seg>) {
    forall i, j, va: int | 0 <= i < j < |segs| :: !(Mapped(segs[i], va) && Mapped(segs[j], va))
  }

  /** No file offset lies in two segments. */
  ghost predicate DisjointFiles(segs: seq<Seg>) {
    forall i, j, fo: int | 0 <= i < j < |segs| :: !(Backed(segs[i], fo) && Backed(segs[j], fo))
  }

  /** In disjoint segments any segment that holds an address is the one that decides. */
  lemma {:induction false} OnlyMapped(segs: seq<Seg>, base: nat, va: int, k: nat)
    requires Disjoint(segs) && k < |segs| && Mapped(segs[k], va)
    ensures OffsetOf(segs, base, va) == Some(base + segs[k].fileoff + (va - segs[k].vmaddr))
  {
    if k > 0 {
      assert segs[1..][k - 1] == segs[k];
      OnlyMapped(segs[1..], base, va, k - 1);
    }
  }

  lemma {:induction false} OnlyBacked(segs: seq<Seg>, fo: int, k: nat)
    requires DisjointFiles(segs) && k < |segs| && Backed(segs[k], fo)
    ensures AddressOf(segs, fo) == Some(segs[k].vmaddr + (fo - segs[k].fileoff))
  {
    if k > 0 {
      assert segs[1..][k - 1] == segs[k];
      OnlyBacked(segs[1..], fo, k - 1);
    }
  }

  lemma {:induction false} SomeBacked(segs: seq<Seg>, fo: int) returns (k: nat)
    requires AddressOf(segs, fo).Some?
    ensures k < |segs| && Backed(segs[k], fo) && AddressOf(segs, fo).value == segs[k].vmaddr + (fo - segs[k].fileoff)
  {
    if Backed(segs[0], fo) {
      k := 0;
    } else {
      var j := SomeBacked(segs[1..], fo);
      k := j + 1;
    }
  }

  lemma {:induction false} SomeMapped(segs: seq<Seg>, base: nat, va: int) returns (k: nat)
    requires OffsetOf(segs, base, va).Some?
    ensures k < |segs| && Mapped(segs[k], va)
            && OffsetOf(segs, base, va).value == base + segs[k].fileoff + (va - segs[k].vmaddr)
  {
    if Mapped(segs[0], va) {
      k := 0;
    } else {
      var j := SomeMapped(segs[1..], base, va);
      k := j + 1;
    }
  }

  /** In a thin file the disassembler finds the offset that the symbolizer came from. */
  lemma OffsetOfAddress(segs: seq<Seg>, fo: int)
    requires Disjoint(segs) && forall k | 0 <= k < |segs| :: segs[k].filesize <= segs[k].vmsize
    requires AddressOf(segs, fo).Some?
    ensures OffsetOf(segs, 0, AddressOf(segs, fo).value) == Some(fo)
  {
    var k := SomeBacked(segs, fo);
    OnlyMapped(segs, 0, AddressOf(segs, fo).value, k);
  }

  /** The other way the two agree exactly on the addresses that the file backs. */
  lemma AddressOfOffset(segs: seq<Seg>, va: int)
    requires Disjoint(segs) && DisjointFiles(segs) && forall k | 0 <= k < |segs| :: segs[k].filesize <= segs[k].vmsize
    requires OffsetOf(segs, 0, va).Some?
    ensures AddressOf(segs, OffsetOf(segs, 0, va).value) == Some(va) <==>
            exists s | s in segs :: Mapped(s, va) && va - s.vmaddr < s.filesize
  {
    var k := SomeMapped(segs, 0, va);
    var fo := OffsetOf(segs, 0, va).value;
    if s :| s in segs && Mapped(s, va) && va - s.vmaddr < s.filesize {
      var j :| 0 <= j < |segs| && segs[j] == s;
      OnlyMapped(segs, 0, va, j);
      OnlyBacked(segs, fo, j);
    }
    if AddressOf(segs, fo) == Some(va) {
      var j := SomeBacked(segs, fo);
      assert segs[j] in segs && Mapped(segs[j], va);
    }
  }

  // ---- The nearest preceding symbol -----------------------------------------------------------------

  datatype Symbol = Symbol(address: nat, name: string)

  /** Sorted tables are sorted by address first. */
  predicate Sorted(syms: seq<Symbol>) {
    forall i, j | 0 <= i < j < |syms| :: syms[i].address <= syms[j].address
  }

  /** The last entry whose address is at most the query, looked for from the end. */
  function Nearest(syms: seq<Symbol>, q: int): Option<Symbol> {
    if syms == [] then None
    else if syms[|syms| - 1].address <= q then Some(syms[|syms| - 1])
    else Nearest(syms[..|syms| - 1], q)
  }

  /** An index that parts the entries up to the query from those beyond it. */
  ghost predicate Parts(syms: seq<Symbol>, q: int, k: int) {
    && 0 <= k <= |syms|
    && (forall i | 0 <= i < k :: syms[i].address <= q)
    && (forall i | k <= i < |syms| :: syms[i].address > q)
  }

  lemma {:induction false} NearestAt(syms: seq<Symbol>, q: int, k: nat)
    requires Parts(syms, q, k)
    ensures Nearest(syms, q) == if k == 0 then None else Some(syms[k - 1])
    decreases |syms|
  {
    if k < |syms| {
      NearestAt(syms[..|syms| - 1], q, k);
    }
  }

  /** The hand-written search of the profile script. */
  method ResolveSymbol(syms: seq<Symbol>, off: int) returns (best: Option<Symbol>)
    requires Sorted(syms)
    ensures best == Nearest(syms, off)
  {
    best := None;
    var lo, hi := 0, |syms|;
    while lo < hi
      invariant 0 <= lo <= hi <= |syms|
      invariant forall i | 0 <= i < lo :: syms[i].address <= off
      invariant forall i | hi <= i < |syms| :: syms[i].address > off
    {
      var mid := (lo + hi) / 2;
      if syms[mid].address <= off {
        lo := mid + 1;
      } else {
        hi := mid;
      }
    }
    NearestAt(syms, off, lo);
    if lo != 0 {
      best := Some(syms[lo - 1]);
    }
  }

  predicate SortedKeys(keys: seq<int>) {
    forall i, j | 0 <= i < j < |keys| :: keys[i] <= keys[j]
  }

  /** Python's `bisect_right`: the first index whose key is beyond `x`. */
  method BisectRight(keys: seq<int>, x: int) returns (lo: nat)
    requires SortedKeys(keys)
    ensures lo <= |keys|
    ensures forall i | 0 <= i < lo :: keys[i] <= x
    ensures forall i | lo <= i < |keys| :: keys[i] > x
  {
    lo := 0;
    var hi := |keys|;
    while lo < hi
      invariant lo <= hi <= |keys|
      invariant forall i | 0 <= i < lo :: keys[i] <= x
      invariant forall i | hi <= i < |keys| :: keys[i] > x
    {
      var mid := (lo + hi) / 2;
      if x < keys[mid] {
        hi := mid;
      } else {
        lo := mid + 1;
      }
    }
  }

  /** The bisect lookup of the stack script and the symbolizer, over a list of keys of its own. */
  method Symbolize(syms: seq<Symbol>, offset: int) returns (best: Option<Symbol>)
    requires Sorted(syms)
    ensures best == Nearest(syms, offset)
  {
    var keys := seq(|syms|, i requires 0 <= i < |syms| => syms[i].address);
    var at: int := BisectRight(keys, offset);
    assert forall i | 0 <= i < |syms| :: keys[i] == syms[i].address;
    NearestAt(syms, offset, at);
    var i := at - 1;
    best := if i < 0 then None else Some(syms[i]);
  }

  /** What `Nearest` means: all entries behind it are beyond the query. */
  lemma {:induction false} NearestIsLast(syms: seq<Symbol>, q: int) returns (k: nat)
    ensures k <= |syms| && (k == 0 <==> Nearest(syms, q).None?)
    ensures k > 0 ==> Nearest(syms, q) == Some(syms[k - 1]) && syms[k - 1].address <= q
    ensures forall i | k <= i < |syms| :: syms[i].address > q
    decreases |syms|
  {
    k := |syms|;
    if syms != [] && syms[|syms| - 1].address > q {
      k := NearestIsLast(syms[..|syms| - 1], q);
    }
  }
}
