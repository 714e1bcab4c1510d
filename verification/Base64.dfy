/**
 The base64 command: an encoder that wraps by emitted characters and a streaming decoder whose
 accumulator is a machine word that drops its high bits.  The references are the groups of
 section 4 of RFC 4648 and a layout that says where every character and line break stands.
 */
module Base64 {
  import opened Bytes
  import opened Numbers

  type Sextet = x: int | 0 <= x < 64

  /** `unsigned long` holds 64 bits; a left shift drops what does not fit. */
  const WORD: int := 0x1_0000_0000_0000_0000

  // ---- The alphabet ------------------------------------------------------------------------------

  /** A to Z, a to z, 0 to 9, plus and slash. */
  function Symbol(x: Sextet): char {
    if x < 26 then 'A' + x as char
    else if x < 52 then 'a' + (x - 26) as char
    else if x < 62 then '0' + (x - 52) as char
    else if x == 62 then '+' else '/'
  }

  /** The value of an alphabet character, or -1. */
  function Value(c: char): (v: int)
    ensures -1 <= v < 64
    ensures v >= 0 ==> Symbol(v) == c
  {
    if 'A' <= c <= 'Z' then c as int - 'A' as int
    else if 'a' <= c <= 'z' then c as int - 'a' as int + 26
    else if '0' <= c <= '9' then c as int - '0' as int + 52
    else if c == '+' then 62
    else if c == '/' then 63
    else -1
  }

  predicate IsBlank(c: char) { c == '\n' || c == '\r' || c == ' ' || c == '\t' }

  lemma ValueOfSymbol(x: Sextet)
    ensures Value(Symbol(x)) == x && Symbol(x) != '=' && !IsBlank(Symbol(x)) && Symbol(x) as int < 256
  {
  }

  /** The loop that inverts the alphabet. */
  method BuildReverse() returns (reverse: array<int>)
    ensures fresh(reverse) && reverse.Length == 256
    ensures forall c: char | c as int < 256 :: reverse[c as int] == Value(c)
  {
    reverse := new int[256](_ => -1);
    for i := 0 to 64
      invariant forall c: char | c as int < 256 :: reverse[c as int] == if Value(c) < i then Value(c) else -1
    {
      ValueOfSymbol(i);
      reverse[Symbol(i) as int] := i;
    }
  }

  // ---- Groups --------------------------------------------------------------------------------------

  /** The three bytes of four sextets, and the four sextets of three bytes. */
  function ByteA(a: int, b: int): Byte
    requires 0 <= a < 64 && 0 <= b < 64
  {
    a * 4 + b / 16
  }

  function ByteB(b: int, c: int): Byte
    requires 0 <= b < 64 && 0 <= c < 64
  {
    b % 16 * 16 + c / 4
  }

  function ByteC(c: int, d: int): Byte
    requires 0 <= c < 64 && 0 <= d < 64
  {
    c % 4 * 64 + d
  }

  function SextetA(x: int): Sextet
    requires 0 <= x < 256
  {
    x / 4
  }

  function SextetB(x: int, y: int): Sextet
    requires 0 <= x < 256 && 0 <= y < 256
  {
    x % 4 * 16 + y / 16
  }

  function SextetC(y: int, z: int): Sextet
    requires 0 <= y < 256 && 0 <= z < 256
  {
    y % 16 * 4 + z / 64
  }

  function SextetD(z: int): Sextet
    requires 0 <= z < 256
  {
    z % 64
  }

  lemma GroupRoundTrip(x: Byte, y: Byte, z: Byte)
    ensures ByteA(SextetA(x), SextetB(x, y)) == x
    ensures ByteB(SextetB(x, y), SextetC(y, z)) == y
    ensures ByteC(SextetC(y, z), SextetD(z)) == z
  {
  }

  /** The sextets of one group of up to three bytes, missing bytes counting as zero. */
  function GroupSextets(g: seq<Byte>): seq<Sextet>
    requires 1 <= |g| <= 3
  {
    if |g| == 1 then [SextetA(g[0]), SextetB(g[0], 0)]
    else if |g| == 2 then [SextetA(g[0]), SextetB(g[0], g[1]), SextetC(g[1], 0)]
    else [SextetA(g[0]), SextetB(g[0], g[1]), SextetC(g[1], g[2]), SextetD(g[2])]
  }

  /** The bytes that up to four sextets hold all bits of. */
  function GroupBytes(q: seq<Sextet>): seq<Byte>
    requires |q| <= 4
  {
    if |q| < 2 then []
    else if |q| == 2 then [ByteA(q[0], q[1])]
    else if |q| == 3 then [ByteA(q[0], q[1]), ByteB(q[1], q[2])]
    else [ByteA(q[0], q[1]), ByteB(q[1], q[2]), ByteC(q[2], q[3])]
  }

  /** Section 4 of RFC 4648: three bytes are four sextets. */
  function ToSextets(b: seq<Byte>): seq<Sextet> {
    if b == [] then [] else if |b| <= 3 then GroupSextets(b) else GroupSextets(b[..3]) + ToSextets(b[3..])
  }

  /** Four sextets are three bytes; a shorter last group gives those it has all bits of. */
  function FromSextets(q: seq<Sextet>): seq<Byte> {
    if |q| <= 4 then GroupBytes(q) else GroupBytes(q[..4]) + FromSextets(q[4..])
  }

  /** `m` sextets give exactly `3m/4` bytes, rounded down. */
  lemma {:induction false} FromSextetsLength(q: seq<Sextet>)
    ensures |FromSextets(q)| == 3 * |q| / 4
  {
    if |q| > 4 {
      FromSextetsLength(q[4..]);
      assert 3 * |q| / 4 == 3 + 3 * (|q| - 4) / 4;
    }
  }

  lemma GroupBack(g: seq<Byte>)
    requires 1 <= |g| <= 3
    ensures GroupBytes(GroupSextets(g)) == g
  {
    if |g| == 1 {
      assert g == [g[0]];
      GroupRoundTrip(g[0], 0, 0);
    } else if |g| == 2 {
      assert g == [g[0], g[1]];
      GroupRoundTrip(g[0], g[1], 0);
    } else {
      assert g == [g[0], g[1], g[2]];
      GroupRoundTrip(g[0], g[1], g[2]);
    }
  }

  lemma {:induction false} SextetsRoundTrip(b: seq<Byte>)
    ensures FromSextets(ToSextets(b)) == b
  {
    if |b| > 3 {
      var g, rest := GroupSextets(b[..3]), ToSextets(b[3..]);
      assert (g + rest)[..4] == g && (g + rest)[4..] == rest;
      GroupBack(b[..3]);
      SextetsRoundTrip(b[3..]);
    } else if b != [] {
      GroupBack(b);
    }
  }

  // ---- Decoding -------------------------------------------------------------------------------------

  datatype Clean = Clean(sextets: seq<Sextet>, ok: bool)

  /** The sextets before the terminator, blanks skipped; anything else makes the input invalid there. */
  function ReadText(s: string): Clean {
    if s == [] || s[0] == '=' then Clean([], true)
    else if Value(s[0]) >= 0 then
      var rest := ReadText(s[1..]);
      Clean([Value(s[0])] + rest.sextets, rest.ok)
    else if IsBlank(s[0]) then ReadText(s[1..])
    else Clean([], false)
  }

  /** What is read when `q` has been read already. */
  function Onto(q: seq<Sextet>, r: Clean): Clean { Clean(q + r.sextets, r.ok) }

  lemma ReadStop(q: seq<Sextet>, s: string)
    requires s == [] || s[0] == '=' || (Value(s[0]) < 0 && !IsBlank(s[0]))
    ensures Onto(q, ReadText(s)) == Clean(q, s == [] || s[0] == '=')
  {
    assert q + [] == q;
  }

  lemma ReadBlank(c: char, s: string)
    requires IsBlank(c)
    ensures ReadText([c] + s) == ReadText(s)
  {
    assert ([c] + s)[1..] == s;
  }

  lemma ReadSymbol(q: seq<Sextet>, c: char, s: string)
    requires Value(c) >= 0
    ensures Onto(q, ReadText([c] + s)) == Onto(q + [Value(c)], ReadText(s))
  {
    assert ([c] + s)[1..] == s;
    assert q + ([Value(c)] + ReadText(s).sextets) == (q + [Value(c)]) + ReadText(s).sextets;
  }

  /** How many bits are left over after `m` sextets: nothing, six, four or two. */
  function Pending(m: nat): nat { PendingOf(m % 4) }

  function PendingOf(r: nat): nat {
    if r == 0 then 0 else if r == 1 then 6 else if r == 2 then 4 else 2
  }

  function Pow2(k: nat): int {
    if k == 0 then 1 else if k == 2 then 4 else if k == 4 then 16 else 64
  }

  /** The byte completed by sextet `x` after `last`, when `r` sextets of the group came before. */
  function Completed(r: nat, last: int, x: int): seq<Byte>
    requires 0 <= last < 64 && 0 <= x < 64
  {
    if r == 0 then []
    else if r == 1 then [ByteA(last, x)]
    else if r == 2 then [ByteB(last, x)]
    else [ByteC(last, x)]
  }

  function LastOr0(q: seq<Sextet>): Sextet { if q == [] then 0 else q[|q| - 1] }

  function NextByte(q: seq<Sextet>, x: Sextet): seq<Byte> { Completed(|q| % 4, LastOr0(q), x) }

  lemma PushShort(q: seq<Sextet>, x: Sextet)
    requires |q| < 4
    ensures GroupBytes(q + [x]) == GroupBytes(q) + NextByte(q, x)
  {
    var p := q + [x];
    assert p[|q|] == x && forall i | 0 <= i < |q| :: p[i] == q[i];
    assert |q| % 4 == |q|;
  }

  lemma NextByteLater(q: seq<Sextet>, x: Sextet)
    requires |q| > 4
    ensures NextByte(q[4..], x) == NextByte(q, x)
  {
    assert |q[4..]| % 4 == |q| % 4;
  }

  lemma {:induction false} FromSextetsPush(q: seq<Sextet>, x: Sextet)
    ensures FromSextets(q + [x]) == FromSextets(q) + NextByte(q, x)
  {
    var p := q + [x];
    if |q| > 4 {
      assert p[..4] == q[..4] && p[4..] == q[4..] + [x];
      FromSextetsPush(q[4..], x);
      NextByteLater(q, x);
    } else if |q| == 4 {
      assert p[..4] == q && p[4..] == [x] && NextByte(q, x) == [];
    } else {
      PushShort(q, x);
    }
  }

  /** The accumulator after one more sextet, high bits dropped. */
  function Shift(value: int, x: int): int {
    value * 64 % WORD + x
  }

  /** Dropping the high bits leaves the low twelve bits of the stream alone. */
  lemma ShiftKeepsLow(value: int, x: Sextet)
    requires 0 <= value < WORD
    ensures 0 <= Shift(value, x) < WORD
    ensures exists k :: Shift(value, x) == 4096 * k + 64 * (value % 64) + x
  {
    var v := value * 64;
    var h, u := v / WORD, v % WORD;
    var k := value / 64 - 0x10_0000_0000_0000 * h;
    assert v == WORD * h + u && value == 64 * (value / 64) + value % 64;
    assert u == 4096 * k + 64 * (value % 64);
    assert Shift(value, x) == 4096 * k + 64 * (value % 64) + x;
  }

  lemma Div4(v: int, t: int, r: int)
    requires v == 4 * t + r && 0 <= r < 4
    ensures v / 4 == t && v % 4 == r
  {
  }

  lemma Div16(v: int, t: int, r: int)
    requires v == 16 * t + r && 0 <= r < 16
    ensures v / 16 == t && v % 16 == r
  {
  }

  lemma Div64(v: int, t: int, r: int)
    requires v == 64 * t + r && 0 <= r < 64
    ensures v / 64 == t && v % 64 == r
  {
  }

  lemma Div256(v: int, t: int, r: int)
    requires v == 256 * t + r && 0 <= r < 256
    ensures v / 256 == t && v % 256 == r
  {
  }

  /** Twelve bits are `p` and then `x`: the byte that ends in the first two, four or six bits of `x`. */
  lemma FirstOfTwo(v: int, k: int, p: int, x: int)
    requires v == 4096 * k + 64 * p + x && 0 <= p < 64 && 0 <= x < 64
    ensures v / 16 % 256 == ByteA(p, x) && v % 16 == x % 16
  {
    Div16(v, 256 * k + 4 * p + x / 16, x % 16);
    Div256(v / 16, k, 4 * p + x / 16);
  }

  lemma MiddleOfTwo(v: int, k: int, p: int, x: int)
    requires v == 4096 * k + 64 * p + x && 0 <= p < 64 && 0 <= x < 64
    ensures v / 4 % 256 == ByteB(p, x) && v % 4 == x % 4
  {
    var a, b := p / 16, p % 16;
    assert p == 16 * a + b;
    Div4(v, 1024 * k + 256 * a + 16 * b + x / 4, x % 4);
    Div256(v / 4, 4 * k + a, 16 * b + x / 4);
  }

  lemma LastOfTwo(v: int, k: int, p: int, x: int)
    requires v == 4096 * k + 64 * p + x && 0 <= p < 64 && 0 <= x < 64
    ensures v % 256 == ByteC(p, x) && v % 64 == x
  {
    var a, b := p / 4, p % 4;
    assert p == 4 * a + b;
    Div256(v, 16 * k + a, 64 * b + x);
    Div64(v, 64 * k + p, x);
  }

  lemma LowerBits(value: int)
    requires 0 <= value
    ensures value % 64 % 16 == value % 16 && value % 64 % 4 == value % 4
  {
    var p := value % 64;
    assert value == 64 * (value / 64) + p;
    Div16(value, 4 * (value / 64) + p / 16, p % 16);
    Div4(value, 16 * (value / 64) + p / 4, p % 4);
  }

  /** The low `have` bits of the word are those of the last sextet read. */
  predicate Holds(value: int, have: nat, last: int) {
    && (have == 2 ==> value % 4 == last % 4)
    && (have == 4 ==> value % 16 == last % 16)
    && (have == 6 ==> value % 64 == last % 64)
  }

  lemma SameByte(p: int, last: Sextet, x: Sextet)
    requires 0 <= p < 64
    ensures p % 16 == last % 16 ==> ByteB(p, x) == ByteB(last, x)
    ensures p % 4 == last % 4 ==> ByteC(p, x) == ByteC(last, x)
  {
  }

  /** The byte a word-sized step completes, and the bits it leaves pending, from the last sextet alone. */
  lemma StepLow(value: int, last: Sextet, x: Sextet)
    requires 0 <= value < WORD
    ensures var v := Shift(value, x);
            && 0 <= v < WORD && v % 64 == x
            && (value % 64 == last ==> v / 16 % 256 == ByteA(last, x) && v % 16 == x % 16)
            && (value % 16 == last % 16 ==> v / 4 % 256 == ByteB(last, x) && v % 4 == x % 4)
            && (value % 4 == last % 4 ==> v % 256 == ByteC(last, x))
  {
    ShiftKeepsLow(value, x);
    var p, v := value % 64, Shift(value, x);
    var k :| v == 4096 * k + 64 * p + x;
    FirstOfTwo(v, k, p, x);
    MiddleOfTwo(v, k, p, x);
    LastOfTwo(v, k, p, x);
    LowerBits(value);
    SameByte(p, last, x);
  }

  /** The eight bits above the lowest `have`. */
  function Cut(value: int, have: nat): Byte { value / Pow2(have) % 256 }

  /** The word-sized step completes the same byte as the unbounded one. */
  lemma StepByte(value: int, r: nat, last: Sextet, x: Sextet)
    requires 0 <= value < WORD && r < 4 && Holds(value, PendingOf(r), last)
    ensures var v, have := Shift(value, x), PendingOf(r) + 6;
            && 0 <= v < WORD
            && PendingOf((r + 1) % 4) == (if have >= 8 then have - 8 else have)
            && Completed(r, last, x) == (if have >= 8 then [Cut(v, have - 8)] else [])
            && Holds(v, PendingOf((r + 1) % 4), x)
  {
    StepLow(value, last, x);
    var v := Shift(value, x);
    if r == 0 {
      assert x % 64 == x;
    } else if r == 1 {
      assert last % 64 == last;
    } else if r == 3 {
      assert v / 1 == v;
    }
  }

  /** The decoder after the sextets `q`: all whole bytes are out, and the rest is pending. */
  ghost predicate Streaming(value: int, have: nat, out: seq<Byte>, q: seq<Sextet>) {
    && 0 <= value < WORD && have == Pending(|q|) && have in {0, 2, 4, 6}
    && out == FromSextets(q)
    && Holds(value, have, LastOr0(q))
  }

  lemma PendingNext(m: nat)
    ensures Pending(m + 1) == PendingOf((m % 4 + 1) % 4) && Pending(m + 1) in {0, 2, 4, 6}
  {
    assert (m + 1) % 4 == (m % 4 + 1) % 4;
  }

  lemma StreamNext(q: seq<Sextet>, x: Sextet, value: int, have: nat, out: seq<Byte>)
    requires 0 <= value < WORD && have == PendingOf((|q| % 4 + 1) % 4) && Holds(value, have, x)
    requires out == FromSextets(q + [x])
    ensures Streaming(value, have, out, q + [x])
  {
    PendingNext(|q|);
    LastPushed(q, x);
  }

  lemma LastPushed(q: seq<Sextet>, x: Sextet)
    ensures LastOr0(q + [x]) == x && |q + [x]| == |q| + 1
  {
    var p := q + [x];
    assert p[|p| - 1] == x;
  }

  /** Shift six bits in, and write a byte when there are eight. */
  method Push(value: int, have: nat, out: seq<Byte>, x: Sextet, ghost q: seq<Sextet>)
    returns (value': int, have': nat, out': seq<Byte>)
    requires Streaming(value, have, out, q)
    ensures Streaming(value', have', out', q + [x])
  {
    StepByte(value, |q| % 4, LastOr0(q), x);
    value' := Shift(value, x);
    have' := have + 6;
    out' := out;
    if have' >= 8 {
      have' := have' - 8;
      out' := out' + [Cut(value', have')];
    }
    assert out + [] == out;
    FromSextetsPush(q, x);
    StreamNext(q, x, value', have', out');
  }

  method Decode(s: string) returns (out: seq<Byte>, ok: bool)
    requires forall k | 0 <= k < |s| :: s[k] as int < 256
    ensures ok == ReadText(s).ok
    ensures out == FromSextets(ReadText(s).sextets)
  {
    var reverse := BuildReverse();
    var value, have := 0, 0;
    out := [];
    ghost var q: seq<Sextet> := [];
    var i := 0;
    assert s[0..] == s && Onto([], ReadText(s)) == ReadText(s);
    while i < |s|
      invariant 0 <= i <= |s|
      invariant ReadText(s) == Onto(q, ReadText(s[i..]))
      invariant Streaming(value, have, out, q)
      invariant forall c: char | c as int < 256 :: reverse[c as int] == Value(c)
    {
      assert s[i..] == [s[i]] + s[i + 1..];
      if s[i] == '=' {
        ReadStop(q, s[i..]);
        return out, true;
      }
      var bits: int := reverse[s[i] as int];
      if bits < 0 {
        if IsBlank(s[i]) {
          ReadBlank(s[i], s[i + 1..]);
          i := i + 1;
          continue;
        }
        ReadStop(q, s[i..]);
        return out, false;
      }
      ReadSymbol(q, s[i], s[i + 1..]);
      value, have, out := Push(value, have, out, bits, q);
      q := q + [bits];
      i := i + 1;
    }
    ReadStop(q, s[i..]);
    ok := true;
  }

  /** A blank anywhere in the input changes nothing. */
  lemma {:induction false} BlankIgnored(a: string, c: char, b: string)
    requires IsBlank(c)
    ensures ReadText(a + [c] + b) == ReadText(a + b)
  {
    if a == [] {
      assert a + [c] + b == [c] + b && ([c] + b)[1..] == b && a + b == b;
    } else {
      BlankIgnored(a[1..], c, b);
      assert (a + [c] + b)[1..] == a[1..] + [c] + b && (a + b)[1..] == a[1..] + b;
    }
  }

  // ---- Encoding -------------------------------------------------------------------------------------

  function Symbols(q: seq<Sextet>): (s: string)
    ensures |s| == |q| && forall i | 0 <= i < |q| :: s[i] == Symbol(q[i])
  {
    seq(|q|, i requires 0 <= i < |q| => Symbol(q[i]))
  }

  /** The unwrapped encoding: whole groups of four, filled up with the padding character. */
  function Encoding(b: seq<Byte>): string {
    if b == [] then [] else if |b| <= 3 then GroupText(b) else GroupText(b[..3]) + Encoding(b[3..])
  }

  lemma {:induction false} EncodingLength(b: seq<Byte>)
    ensures |Encoding(b)| == 4 * ((|b| + 2) / 3)
  {
    if |b| > 3 {
      EncodingLength(b[3..]);
      assert (|b| + 2) / 3 == (|b| - 3 + 2) / 3 + 1;
    }
  }

  /** The four characters of one group of up to three bytes. */
  function GroupText(g: seq<Byte>): (t: string)
    requires 1 <= |g| <= 3
    ensures |t| == 4
  {
    Symbols(GroupSextets(g)) + Padding(|g|)
  }

  function Padding(n: nat): string { if n == 1 then "==" else if n == 2 then "=" else "" }

  /** The layout: `w` characters and a newline, again and again, and a newline after what remains. */
  function Wrapped(s: string, w: int): string
    decreases |s|
  {
    if w <= 0 || s == [] then s
    else if |s| <= w then s + "\n"
    else s[..w] + ("\n" + Wrapped(s[w..], w))
  }

  /** What has been written after the characters `s`: a newline after every `w`-th, nothing else. */
  function Emitted(s: string, w: int): string
    decreases |s|
  {
    if w <= 0 || |s| < w then s
    else s[..w] + ("\n" + Emitted(s[w..], w))
  }

  /** How many characters stand on the line being written. */
  function Column(s: string, w: int): int
    decreases |s|
  {
    if w <= 0 then 0
    else if |s| < w then |s|
    else Column(s[w..], w)
  }

  lemma {:induction false} EmittedPush(s: string, c: char, w: int)
    requires w > 0
    ensures Column(s + [c], w) == if Column(s, w) + 1 == w then 0 else Column(s, w) + 1
    ensures Emitted(s + [c], w) == Emitted(s, w) + (if Column(s, w) + 1 == w then [c, '\n'] else [c])
    decreases |s|
  {
    if |s| >= w {
      EmittedPush(s[w..], c, w);
      assert (s + [c])[w..] == s[w..] + [c] && (s + [c])[..w] == s[..w];
    } else if |s| + 1 == w {
      assert (s + [c])[..w] == s + [c] && (s + [c])[w..] == [];
    }
  }

  lemma {:induction false} WrappedIsEmitted(s: string, w: int)
    requires w > 0
    ensures Wrapped(s, w) == Emitted(s, w) + (if Column(s, w) != 0 then "\n" else "")
    decreases |s|
  {
    if |s| > w {
      WrappedIsEmitted(s[w..], w);
    } else if |s| == w {
      assert s[..w] == s && s[w..] == [];
    }
  }

  /** One character, and a newline when the column reaches the width. */
  method Emit(out: string, ch: char, wrap: int, column: int, ghost s: string) returns (out': string, column': int)
    requires out == Emitted(s, wrap) && column == Column(s, wrap)
    ensures out' == Emitted(s + [ch], wrap) && column' == Column(s + [ch], wrap)
  {
    out', column' := out + [ch], column;
    if wrap > 0 {
      EmittedPush(s, ch, wrap);
      column' := column' + 1;
      if column' == wrap {
        out' := out' + "\n";
        column' := 0;
      }
    }
  }

  /** The word a group is packed into. */
  function Packed(x: int, y: int, z: int): int { x * 65536 + y * 256 + z }

  lemma GroupHigh(x: Byte, y: Byte, z: Byte)
    ensures Packed(x, y, z) / 262144 % 64 == SextetA(x)
    ensures Packed(x, y, z) / 4096 % 64 == SextetB(x, y)
  {
    var value := Packed(x, y, z);
    assert value == 262144 * (x / 4) + (x % 4 * 65536 + y * 256 + z);
    assert value / 4096 == 64 * (x / 4) + (x % 4 * 16 + y / 16);
  }

  lemma GroupThird(x: Byte, y: Byte, z: Byte)
    ensures Packed(x, y, z) / 64 % 64 == SextetC(y, z)
  {
    assert Packed(x, y, z) / 64 == 64 * (x * 16 + y / 16) + (y % 16 * 4 + z / 64);
  }

  lemma GroupFourth(x: Byte, y: Byte, z: Byte)
    ensures Packed(x, y, z) % 64 == SextetD(z)
  {
    assert Packed(x, y, z) == 64 * (x * 1024 + y * 4 + z / 64) + z % 64;
  }

  /** The characters of a group are cut out of the word it is packed into. */
  lemma GroupCut(g: seq<Byte>, value: int)
    requires 1 <= |g| <= 3
    requires value == Packed(g[0], if |g| > 1 then g[1] else 0, if |g| > 2 then g[2] else 0) && 0 <= value
    ensures GroupText(g) == [Symbol(value / 262144 % 64), Symbol(value / 4096 % 64),
                             if |g| > 1 then Symbol(value / 64 % 64) else '=',
                             if |g| > 2 then Symbol(value % 64) else '=']
  {
    var y, z := if |g| > 1 then g[1] else 0, if |g| > 2 then g[2] else 0;
    GroupHigh(g[0], y, z);
    GroupThird(g[0], y, z);
    GroupFourth(g[0], y, z);
  }

  method EmitFour(out: string, c0: char, c1: char, c2: char, c3: char, wrap: int, column: int, ghost s: string)
      returns (out': string, column': int)
    requires out == Emitted(s, wrap) && column == Column(s, wrap)
    ensures out' == Emitted(s + [c0, c1, c2, c3], wrap) && column' == Column(s + [c0, c1, c2, c3], wrap)
  {
    out', column' := Emit(out, c0, wrap, column, s);
    out', column' := Emit(out', c1, wrap, column', s + [c0]);
    out', column' := Emit(out', c2, wrap, column', s + [c0] + [c1]);
    out', column' := Emit(out', c3, wrap, column', s + [c0] + [c1] + [c2]);
    assert s + [c0] + [c1] + [c2] + [c3] == s + [c0, c1, c2, c3];
  }

  /** The bits of a group in one word, and the four characters cut out of it. */
  method EncodeGroup(out: string, g: seq<Byte>, wrap: int, column: int, ghost s: string)
      returns (out': string, column': int)
    requires 1 <= |g| <= 3
    requires out == Emitted(s, wrap) && column == Column(s, wrap)
    ensures out' == Emitted(s + GroupText(g), wrap) && column' == Column(s + GroupText(g), wrap)
  {
    var y, z := if |g| > 1 then g[1] else 0, if |g| > 2 then g[2] else 0;
    var value := Packed(g[0], y, z);
    GroupCut(g, value);
    var c0 := Symbol(value / 262144 % 64);
    var c1 := Symbol(value / 4096 % 64);
    var c2 := if |g| > 1 then Symbol(value / 64 % 64) else '=';
    var c3 := if |g| > 2 then Symbol(value % 64) else '=';
    assert GroupText(g) == [c0, c1, c2, c3];
    out', column' := EmitFour(out, c0, c1, c2, c3, wrap, column, s);
  }

  lemma EncodingStep(b: seq<Byte>, g: seq<Byte>, rest: seq<Byte>)
    requires b != [] && b == g + rest && |g| == if |b| < 3 then |b| else 3
    ensures Encoding(b) == GroupText(g) + Encoding(rest)
  {
    if |b| > 3 {
      assert b[..3] == g && b[3..] == rest;
    } else {
      assert b == g && rest == [];
    }
  }

  /** The group at `i` moves from what is left to what is done. */
  lemma EncodingNext(b: seq<Byte>, i: nat, end: nat, s: string)
    requires i < |b| && end == (if |b| - i < 3 then |b| else i + 3)
    ensures s + Encoding(b[i..]) == s + GroupText(b[i..end]) + Encoding(b[end..])
  {
    assert b[i..] == b[i..end] + b[end..];
    EncodingStep(b[i..], b[i..end], b[end..]);
  }

  method Encode(b: seq<Byte>, wrap: int) returns (out: string)
    ensures out == Wrapped(Encoding(b), wrap)
  {
    out := [];
    var column := 0;
    var i := 0;
    ghost var s: string := [];
    assert b[0..] == b && [] + Encoding(b) == Encoding(b);
    while i < |b|
      invariant 0 <= i <= |b|
      invariant Encoding(b) == s + Encoding(b[i..])
      invariant out == Emitted(s, wrap) && column == Column(s, wrap)
    {
      var end := if |b| - i < 3 then |b| else i + 3;
      EncodingNext(b, i, end, s);
      out, column := EncodeGroup(out, b[i..end], wrap, column, s);
      s := s + GroupText(b[i..end]);
      i := end;
    }
    assert s == Encoding(b);
    if wrap > 0 {
      WrappedIsEmitted(s, wrap);
    }
    if wrap > 0 && column != 0 {
      out := out + "\n";
    }
  }

  // ---- Round trip -----------------------------------------------------------------------------------

  lemma {:induction false} ReadSymbols(q: seq<Sextet>, t: string)
    ensures ReadText(Symbols(q) + t) == Onto(q, ReadText(t))
  {
    if q == [] {
      assert Symbols(q) + t == t && [] + ReadText(t).sextets == ReadText(t).sextets;
    } else {
      ReadSymbols(q[1..], t);
      ValueOfSymbol(q[0]);
      var rest := Symbols(q[1..]) + t;
      assert Symbols(q) + t == [Symbol(q[0])] + rest;
      assert ([Symbol(q[0])] + rest)[1..] == rest;
      assert [q[0]] + (q[1..] + ReadText(t).sextets) == q + ReadText(t).sextets;
    }
  }

  lemma {:induction false} ReadEncoding(b: seq<Byte>)
    ensures ReadText(Encoding(b)) == Clean(ToSextets(b), true)
  {
    if |b| > 3 {
      var g, rest := GroupSextets(b[..3]), Encoding(b[3..]);
      ReadEncoding(b[3..]);
      ReadSymbols(g, rest);
      assert Symbols(g) + "" + rest == Symbols(g) + rest;
    } else if b != [] {
      ReadSymbols(GroupSextets(b), Padding(|b|));
      assert GroupSextets(b) + [] == GroupSextets(b);
    }
  }

  lemma Regrouped(a: string, b: string, c: string, d: string)
    ensures a + (b + (c + d)) == a + b + c + d
  {
  }

  /** Line breaks are invisible to the reader, wherever they fall. */
  lemma {:induction false} ReadWrapped(a: string, s: string, w: int)
    ensures ReadText(a + Wrapped(s, w)) == ReadText(a + s)
    decreases |s|
  {
    if w <= 0 || s == [] {
    } else if |s| <= w {
      BlankIgnored(a + s, '\n', "");
      assert a + (s + "\n") == a + s + ['\n'] + "" && a + s + "" == a + s;
    } else {
      var front, rest := s[..w], s[w..];
      ReadWrapped(a + front, rest, w);
      BlankIgnored(a + front, '\n', Wrapped(rest, w));
      Regrouped(a, front, "\n", Wrapped(rest, w));
      assert front + rest == s && a + front + rest == a + (front + rest);
    }
  }

  /** Decoding the encoder's output gives the bytes back, for every wrap width. */
  lemma RoundTrip(b: seq<Byte>, w: int)
    ensures ReadText(Wrapped(Encoding(b), w)).ok
    ensures FromSextets(ReadText(Wrapped(Encoding(b), w)).sextets) == b
  {
    ReadWrapped([], Encoding(b), w);
    assert [] + Wrapped(Encoding(b), w) == Wrapped(Encoding(b), w) && [] + Encoding(b) == Encoding(b);
    ReadEncoding(b);
    SextetsRoundTrip(b);
  }

  // ---- Layout ---------------------------------------------------------------------------------------

  lemma DivStep(a: int, w: int)
    requires w > 0
    ensures (a + w) / w == a / w + 1
  {
    var k := a / w;
    assert a == w * k + a % w;
    assert w * (k + 1) == w * k + w;
    DivUnique(a + w, w, k + 1, a % w);
  }

  /** The number of lines that `c` characters take: `c / w`, rounded up. */
  function LineCount(c: nat, w: int): int
    requires w > 0
  {
    (c + w - 1) / w
  }

  lemma LineCountStep(c: nat, w: int)
    requires w > 0
    ensures c == 0 ==> LineCount(c, w) == 0
    ensures 0 < c <= w ==> LineCount(c, w) == 1
    ensures c >= w ==> LineCount(c, w) == LineCount(c - w, w) + 1
  {
    if c == 0 {
      DivUnique(w - 1, w, 0, w - 1);
    } else if c <= w {
      DivUnique(c + w - 1, w, 1, c - 1);
    }
    if c >= w {
      DivStep(c - 1, w);
    }
  }

  /** Character `i` stands behind one newline for every full line before it. */
  lemma {:induction false} CharAt(s: string, w: int, i: nat)
    requires w > 0 && i < |s|
    ensures 0 <= i / w && i + i / w < |Wrapped(s, w)| && Wrapped(s, w)[i + i / w] == s[i]
    decreases |s|
  {
    if i < w {
      DivUnique(i, w, 0, i);
    } else {
      DivStep(i - w, w);
      CharAt(s[w..], w, i - w);
    }
  }

  /** How many of `c` characters stand on the first `k + 1` lines: `w` on each, or all there are. */
  function LineEnd(c: nat, w: int, k: nat): nat
    requires w > 0
  {
    if c <= (k + 1) * w then c else (k + 1) * w
  }

  /** Newline `k` ends the line that holds `w` characters, or what is left of them. */
  lemma {:induction false} NewlineAt(s: string, w: int, k: nat)
    requires w > 0 && k < LineCount(|s|, w)
    ensures LineEnd(|s|, w, k) + k < |Wrapped(s, w)| && Wrapped(s, w)[LineEnd(|s|, w, k) + k] == '\n'
    decreases |s|
  {
    LineCountStep(|s|, w);
    assert (k + 1) * w == k * w + w;
    if |s| > w && k > 0 {
      NewlineAt(s[w..], w, k - 1);
    } else if |s| <= w {
      assert k == 0;
    }
  }

  lemma {:induction false} WrappedLength(s: string, w: int)
    requires w > 0
    ensures |Wrapped(s, w)| == |s| + LineCount(|s|, w)
    decreases |s|
  {
    LineCountStep(|s|, w);
    if |s| > w {
      WrappedLength(s[w..], w);
    }
  }

  function WithoutNewlines(s: string): string {
    if s == [] then []
    else if s[0] == '\n' then WithoutNewlines(s[1..])
    else [s[0]] + WithoutNewlines(s[1..])
  }

  lemma {:induction false} WithoutNewlinesConcat(a: string, b: string)
    ensures WithoutNewlines(a + b) == WithoutNewlines(a) + WithoutNewlines(b)
  {
    if a == [] {
      assert a + b == b && WithoutNewlines(a) + WithoutNewlines(b) == WithoutNewlines(b);
    } else {
      assert (a + b)[0] == a[0] && (a + b)[1..] == a[1..] + b;
      WithoutNewlinesConcat(a[1..], b);
      var rest := WithoutNewlines(a[1..]);
      assert [a[0]] + (rest + WithoutNewlines(b)) == [a[0]] + rest + WithoutNewlines(b);
    }
  }

  lemma {:induction false} NothingToDelete(s: string)
    requires '\n' !in s
    ensures WithoutNewlines(s) == s
  {
    if s != [] {
      assert s[0] in s;
      NothingToDelete(s[1..]);
    }
  }

  lemma LineDeleted(front: string, rest: string)
    requires '\n' !in front
    ensures WithoutNewlines(front + ("\n" + rest)) == front + WithoutNewlines(rest)
  {
    NothingToDelete(front);
    WithoutNewlinesConcat(front, "\n" + rest);
    assert ("\n" + rest)[1..] == rest;
  }

  lemma {:induction false} Unwrapped(s: string, w: int)
    requires '\n' !in s
    ensures WithoutNewlines(Wrapped(s, w)) == s
    decreases |s|
  {
    if w <= 0 || s == [] {
      NothingToDelete(s);
    } else if |s| <= w {
      LineDeleted(s, "");
      assert "\n" + "" == "\n" && s + "" == s;
    } else {
      Unwrapped(s[w..], w);
      LineDeleted(s[..w], Wrapped(s[w..], w));
      assert s == s[..w] + s[w..];
    }
  }

  lemma NoNewlineInGroup(g: seq<Byte>)
    requires 1 <= |g| <= 3
    ensures '\n' !in GroupText(g)
  {
    forall x: Sextet ensures Symbol(x) != '\n' {
      ValueOfSymbol(x);
    }
  }

  lemma {:induction false} NoNewlineInside(b: seq<Byte>)
    ensures '\n' !in Encoding(b)
  {
    if |b| > 3 {
      NoNewlineInGroup(b[..3]);
      NoNewlineInside(b[3..]);
    } else if b != [] {
      NoNewlineInGroup(b);
    }
  }

  /**
   The exact layout of a wrapped encoding of `n` bytes: four characters for every group of three
   bytes begun, one newline per line, `w` characters on every line but the last, a newline at the
   end unless there is nothing, and the unwrapped encoding when the newlines are deleted.
   */
  lemma Layout(b: seq<Byte>, w: int, i: nat, k: nat)
    requires w > 0
    ensures var s := Encoding(b);
            var out := Wrapped(s, w);
            && |s| == 4 * ((|b| + 2) / 3)
            && |out| == |s| + LineCount(|s|, w)
            && (i < |s| ==> 0 <= i + i / w < |out| && out[i + i / w] == s[i])
            && (k < LineCount(|s|, w) ==> LineEnd(|s|, w, k) + k < |out| && out[LineEnd(|s|, w, k) + k] == '\n')
            && (if b == [] then out == [] else out != [] && out[|out| - 1] == '\n')
            && WithoutNewlines(out) == s
  {
    var s := Encoding(b);
    EncodingLength(b);
    Places(s, w, i, k);
    EndsLine(s, w);
    NoNewlineInside(b);
    Unwrapped(s, w);
  }

  /** Where the characters and the newlines of a wrapped text stand. */
  lemma Places(s: string, w: int, i: nat, k: nat)
    requires w > 0
    ensures var out := Wrapped(s, w);
            && |out| == |s| + LineCount(|s|, w)
            && (i < |s| ==> 0 <= i + i / w < |out| && out[i + i / w] == s[i])
            && (k < LineCount(|s|, w) ==> LineEnd(|s|, w, k) + k < |out| && out[LineEnd(|s|, w, k) + k] == '\n')
  {
    WrappedLength(s, w);
    if i < |s| {
      CharAt(s, w, i);
    }
    if k < LineCount(|s|, w) {
      NewlineAt(s, w, k);
    }
  }

  lemma {:induction false} EndsLine(s: string, w: int)
    requires w > 0
    ensures s != [] ==> Wrapped(s, w) != [] && Wrapped(s, w)[|Wrapped(s, w)| - 1] == '\n'
    decreases |s|
  {
    if |s| > w {
      EndsLine(s[w..], w);
    }
  }
}
