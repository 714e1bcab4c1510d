/** Byte strings, little-endian words, and what stands where in a file. */
module Bytes {
  import opened Options
  import opened Numbers

  type Byte = x: int | 0 <= x < 256

  /** A value together with the offset behind it. */
  datatype Read<+T> = Read(value: T, at: nat)

  function Power(b: nat, e: nat): (p: nat)
    ensures b > 0 ==> p > 0
  {
    if e == 0 then 1 else b * Power(b, e - 1)
  }

  /** The number that bytes stand for, least significant first. */
  function Little(s: seq<Byte>): nat {
    if s == [] then 0 else s[0] + 256 * Little(s[1..])
  }

  function Word(n: nat, width: nat): (s: seq<Byte>)
    ensures |s| == width
  {
    if width == 0 then [] else [n % 256] + Word(n / 256, width - 1)
  }

  lemma {:induction false} LittleWord(n: nat, width: nat)
    requires n < Power(256, width)
    ensures Little(Word(n, width)) == n
  {
    if width > 0 {
      LittleWord(n / 256, width - 1);
    }
  }

  /** Dividing by `a` and then by `b` is dividing by their product. */
  lemma DivTwice(n: nat, a: nat, b: nat, d: nat)
    requires a > 0 && b > 0 && d == a * b
    ensures n / a / b == n / d
  {
    var m := n / a;
    var q, r := m / b, a * (m % b) + n % a;
    assert m == b * q + m % b && n == a * m + n % a;
    assert d * q == a * (b * q) && a * (b * q + m % b) == a * (b * q) + a * (m % b);
    MulOrder(m % b, b - 1, a);
    assert (b - 1) * a == d - a;
    DivUnique(n, d, q, r);
  }

  /** The bytes of a word are the digits of the number to base 256, the lowest first. */
  lemma {:induction false} WordDigits(n: nat, width: nat, i: nat)
    requires i < width
    ensures Word(n, width)[i] == n / Power(256, i) % 256
  {
    if i > 0 {
      WordDigits(n / 256, width - 1, i - 1);
      DivTwice(n, 256, Power(256, i - 1), Power(256, i));
    }
  }

  /** Four-byte words, one after the other. */
  function Words(ns: seq<nat>): (s: seq<Byte>)
    ensures |s| == 4 * |ns|
  {
    if ns == [] then [] else Word(ns[0], 4) + Words(ns[1..])
  }

  /** The bytes `piece` stand at offset `o`. */
  ghost predicate At(d: seq<Byte>, o: nat, piece: seq<Byte>)
    decreases |piece|
  {
    if piece == [] then o <= |d|
    else o < |d| && d[o] == piece[0] && At(d, o + 1, piece[1..])
  }

  lemma {:induction false} AtIsSlice(d: seq<Byte>, o: nat, piece: seq<Byte>)
    ensures At(d, o, piece) <==> o + |piece| <= |d| && d[o..o + |piece|] == piece
    decreases |piece|
  {
    if piece != [] && o < |d| {
      AtIsSlice(d, o + 1, piece[1..]);
      if o + |piece| <= |d| {
        assert d[o..o + |piece|] == [d[o]] + d[o + 1..o + |piece|];
        assert piece == [piece[0]] + piece[1..];
      }
    }
  }

  lemma {:induction false} AtParts(d: seq<Byte>, o: nat, a: seq<Byte>, b: seq<Byte>)
    ensures At(d, o, a + b) <==> At(d, o, a) && At(d, o + |a|, b)
    decreases |a|
  {
    if a == [] {
      assert a + b == b;
      AtIsSlice(d, o, b);
    } else {
      AtParts(d, o + 1, a[1..], b);
      assert (a + b)[1..] == a[1..] + b;
    }
  }

  lemma {:induction false} WordsAt(d: seq<Byte>, o: nat, ns: seq<nat>, i: nat)
    requires At(d, o, Words(ns)) && i < |ns|
    ensures At(d, o + 4 * i, Word(ns[i], 4))
    decreases |ns|
  {
    AtParts(d, o, Word(ns[0], 4), Words(ns[1..]));
    if i > 0 {
      WordsAt(d, o + 4, ns[1..], i - 1);
    }
  }

  function WordAt(d: seq<Byte>, o: nat, width: nat): Option<Read<nat>> {
    if o + width > |d| then None else Some(Read(Little(d[o..o + width]), o + width))
  }

  lemma WordRead(d: seq<Byte>, o: nat, n: nat, width: nat)
    requires n < Power(256, width) && At(d, o, Word(n, width))
    ensures WordAt(d, o, width) == Some(Read(n, o + width))
  {
    AtIsSlice(d, o, Word(n, width));
    LittleWord(n, width);
  }

  /** A slice in Python: what there is of it. */
  function Slice<T>(s: seq<T>, from: nat, count: nat): seq<T> {
    if from >= |s| then [] else if from + count <= |s| then s[from..from + count] else s[from..]
  }

  /** The items from `from` on, up to `count` of them. */
  lemma SliceItems<T>(s: seq<T>, from: nat, count: nat)
    ensures |Slice(s, from, count)| == if from >= |s| then 0 else Min(count, |s| - from)
    ensures forall i | 0 <= i < |Slice(s, from, count)| :: Slice(s, from, count)[i] == s[from + i]
  {
  }

  lemma SliceThere(d: seq<Byte>, o: nat, piece: seq<Byte>)
    requires At(d, o, piece)
    ensures Slice(d, o, |piece|) == piece
  {
    AtIsSlice(d, o, piece);
  }

  // ---- Tables ---------------------------------------------------------------------------------------

  /** `count` entries, each read where the one before it ended. */
  function Table<T>(entry: nat -> Option<Read<T>>, o: nat, count: nat): Option<seq<T>>
    decreases count
  {
    if count == 0 then Some([])
    else match entry(o)
      case None => None
      case Some(r) => Behind([r.value], Table(entry, r.at, count - 1))
  }

  function Behind<T>(first: seq<T>, more: Option<seq<T>>): Option<seq<T>> {
    match more
    case None => None
    case Some(rest) => Some(first + rest)
  }

  lemma TableStep<T>(done: seq<T>, entry: nat -> Option<Read<T>>, o: nat, count: nat)
    requires count > 0
    ensures entry(o).None? ==> Behind(done, Table(entry, o, count)) == None
    ensures entry(o).Some? ==> Behind(done, Table(entry, o, count)) ==
                               Behind(done + [entry(o).value.value], Table(entry, entry(o).value.at, count - 1))
  {
    if entry(o).Some? {
      var r := entry(o).value;
      var more := Table(entry, r.at, count - 1);
      if more.Some? {
        assert done + ([r.value] + more.value) == done + [r.value] + more.value;
      }
    }
  }

  function Joined<S>(items: seq<S>, bytes: S -> seq<Byte>): seq<Byte> {
    if items == [] then [] else bytes(items[0]) + Joined(items[1..], bytes)
  }

  function Each<S, T>(items: seq<S>, f: S -> T): (r: seq<T>)
    ensures |r| == |items| && forall i | 0 <= i < |items| :: r[i] == f(items[i])
  {
    seq(|items|, i requires 0 <= i < |items| => f(items[i]))
  }

  lemma EachStep<S, T>(items: seq<S>, f: S -> T)
    requires items != []
    ensures Each(items, f) == [f(items[0])] + Each(items[1..], f)
  {
  }

  /** Wherever the bytes of the item stand, they are read as what it means. */
  ghost predicate Reads<S, T>(d: seq<Byte>, item: S, bytes: S -> seq<Byte>, entry: nat -> Option<Read<T>>,
                              meaning: S -> T)
  {
    forall o: nat {:trigger At(d, o, bytes(item))} | At(d, o, bytes(item)) ::
      entry(o) == Some(Read(meaning(item), o + |bytes(item)|))
  }

  /** A table of self-delimiting entries is read back entry by entry. */
  lemma {:induction false} TableRead<S, T>(d: seq<Byte>, o: nat, items: seq<S>, bytes: S -> seq<Byte>,
                                           entry: nat -> Option<Read<T>>, meaning: S -> T)
    requires forall i | 0 <= i < |items| :: Reads(d, items[i], bytes, entry, meaning)
    requires At(d, o, Joined(items, bytes))
    ensures Table(entry, o, |items|) == Some(Each(items, meaning))
    decreases |items|
  {
    if items != [] {
      var first, rest := items[0], items[1..];
      AtParts(d, o, bytes(first), Joined(rest, bytes));
      assert Reads(d, items[0], bytes, entry, meaning);
      TableRead(d, o + |bytes(first)|, rest, bytes, entry, meaning);
      EachStep(items, meaning);
    }
  }

  lemma BehindNothing<T>(more: Option<seq<T>>)
    ensures Behind([], more) == more
  {
    if more.Some? {
      assert [] + more.value == more.value;
    }
  }
}
