/**
 What the base64 command's groups and verdicts mean, said without its own arithmetic: the alphabet as a
 string, a group as one number with digits to base 256 and to base 64, and which inputs are valid.
 */
module Base64Meaning {
  import opened Bytes
  import opened Base64

  const UPPER: string := "ABCDEFGHIJKLMNOPQRSTUVWXYZ"
  const LOWER: string := "abcdefghijklmnopqrstuvwxyz"
  const ALPHABET: string := UPPER + LOWER + "0123456789+/"

  lemma UpperOrder(x: Sextet)
    requires x < 26
    ensures Symbol(x) == UPPER[x]
  {
  }

  lemma LowerOrder(x: Sextet)
    requires 26 <= x < 52
    ensures Symbol(x) == LOWER[x - 26]
  {
  }

  /** Sextets stand for the characters of the alphabet in their order. */
  lemma AlphabetOrder(x: Sextet)
    ensures |ALPHABET| == 64 && Symbol(x) == ALPHABET[x] && Value(ALPHABET[x]) == x
  {
    assert |UPPER| == |LOWER| == 26;
    ValueOfSymbol(x);
    if x < 26 {
      UpperOrder(x);
    } else if x < 52 {
      LowerOrder(x);
    } else {
      assert Symbol(x) == "0123456789+/"[x - 52];
    }
  }

  /** A character has a value exactly if it is in the alphabet. */
  lemma InAlphabet(c: char)
    ensures Value(c) >= 0 <==> c in ALPHABET
  {
    if Value(c) >= 0 {
      AlphabetOrder(Value(c));
    } else if c in ALPHABET {
      var x: nat :| x < |ALPHABET| && ALPHABET[x] == c;
      AlphabetOrder(x);
      assert false;
    }
  }

  /** The part of the input in front of the first padding character. */
  function Body(s: string): string {
    if s == [] || s[0] == '=' then [] else [s[0]] + Body(s[1..])
  }

  /** The characters of the alphabet in it. */
  function Kept(s: string): string {
    if s == [] then [] else (if s[0] in ALPHABET then [s[0]] else []) + Kept(s[1..])
  }

  lemma {:induction false} BodyIsPrefix(s: string)
    ensures |Body(s)| <= |s| && Body(s) == s[..|Body(s)|] && '=' !in Body(s)
    ensures |Body(s)| < |s| ==> s[|Body(s)|] == '='
  {
    if s != [] && s[0] != '=' {
      BodyIsPrefix(s[1..]);
    }
  }

  /** An input is valid exactly if all before the first padding character is of the alphabet or blank. */
  lemma {:induction false} ValidInput(s: string)
    ensures ReadText(s).ok <==> forall i | 0 <= i < |Body(s)| :: Body(s)[i] in ALPHABET || Body(s)[i] in " \t\r\n"
  {
    if s != [] && s[0] != '=' {
      ValidInput(s[1..]);
      InAlphabet(s[0]);
      var body := Body(s);
      assert body[0] == s[0] && body[1..] == Body(s[1..]);
      assert forall i | 0 <= i < |Body(s[1..])| :: Body(s[1..])[i] == body[i + 1];
      assert s[0] in " \t\r\n" <==> IsBlank(s[0]);
    }
  }

  /** The sextets of a valid input are the places of its alphabet characters, in their order. */
  lemma {:induction false} SextetsRead(s: string)
    requires ReadText(s).ok
    ensures |ReadText(s).sextets| == |Kept(Body(s))|
    ensures forall i | 0 <= i < |Kept(Body(s))| :: ALPHABET[ReadText(s).sextets[i]] == Kept(Body(s))[i]
  {
    if s != [] && s[0] != '=' {
      SextetsRead(s[1..]);
      InAlphabet(s[0]);
      if Value(s[0]) >= 0 {
        AlphabetOrder(Value(s[0]));
      }
      assert Body(s)[1..] == Body(s[1..]);
    }
  }

  // ---- Groups as numbers ----------------------------------------------------------------------------

  function ToBase256(x: int, y: int, z: int): int { x * 0x10000 + y * 0x100 + z }
  function ToBase64(a: int, b: int, c: int, d: int): int { a * 0x40000 + b * 0x1000 + c * 0x40 + d }

  /** Three bytes and their four sextets are the digits of one number of 24 bits. */
  lemma GroupIsNumber(x: Byte, y: Byte, z: Byte)
    ensures ToBase256(x, y, z) == ToBase64(SextetA(x), SextetB(x, y), SextetC(y, z), SextetD(z))
  {
  }

  /** Group `j` of the bytes and group `j` of the sextets are one number. */
  lemma {:induction false} GroupNumbers(b: seq<Byte>, j: nat)
    requires 3 * j + 3 <= |b|
    ensures var q := ToSextets(b);
            && 4 * j + 4 <= |q|
            && ToBase256(b[3 * j], b[3 * j + 1], b[3 * j + 2]) ==
               ToBase64(q[4 * j], q[4 * j + 1], q[4 * j + 2], q[4 * j + 3])
    decreases |b|
  {
    if j == 0 {
      GroupIsNumber(b[0], b[1], b[2]);
    } else {
      GroupNumbers(b[3..], j - 1);
    }
  }

  /** A last group of one byte is filled up with zeros. */
  lemma {:induction false} LastByte(b: seq<Byte>, groups: nat)
    requires |b| == 3 * groups + 1
    ensures var q := ToSextets(b);
            && |q| == 4 * groups + 2
            && ToBase256(b[3 * groups], 0, 0) == ToBase64(q[4 * groups], q[4 * groups + 1], 0, 0)
    decreases groups
  {
    if groups > 0 {
      LastByte(b[3..], groups - 1);
    } else {
      GroupIsNumber(b[0], 0, 0);
    }
  }

  /** And so is a last group of two. */
  lemma {:induction false} LastBytes(b: seq<Byte>, groups: nat)
    requires |b| == 3 * groups + 2
    ensures var q := ToSextets(b);
            && |q| == 4 * groups + 3
            && ToBase256(b[3 * groups], b[3 * groups + 1], 0) ==
               ToBase64(q[4 * groups], q[4 * groups + 1], q[4 * groups + 2], 0)
    decreases groups
  {
    if groups > 0 {
      LastBytes(b[3..], groups - 1);
    } else {
      GroupIsNumber(b[0], b[1], 0);
    }
  }

  lemma SextetsAreNumber(a: Sextet, b: Sextet, c: Sextet, d: Sextet)
    ensures ToBase64(a, b, c, d) == ToBase256(ByteA(a, b), ByteB(b, c), ByteC(c, d))
  {
  }

  /** Decoding gives group `j` the same number, whatever the sextets. */
  lemma {:induction false} DecodedNumbers(q: seq<Sextet>, j: nat)
    requires 4 * j + 4 <= |q|
    ensures var b := FromSextets(q);
            && 3 * j + 3 <= |b|
            && ToBase64(q[4 * j], q[4 * j + 1], q[4 * j + 2], q[4 * j + 3]) ==
               ToBase256(b[3 * j], b[3 * j + 1], b[3 * j + 2])
    decreases |q|
  {
    if j == 0 {
      SextetsAreNumber(q[0], q[1], q[2], q[3]);
    } else {
      DecodedNumbers(q[4..], j - 1);
    }
  }

  /** What `extra` sextets behind whole groups give: none, one or two bytes; their lowest bits are dropped. */
  lemma {:induction false} DecodedRest(q: seq<Sextet>, groups: nat, extra: nat)
    requires |q| == 4 * groups + extra && extra < 4
    ensures var b, m, n := FromSextets(q), 4 * groups, 3 * groups;
            match extra
            case 0 => |b| == n
            case 1 => |b| == n
            case 2 => |b| == n + 1 && b[n] == ToBase64(q[m], q[m + 1], 0, 0) / 0x10000
            case 3 => |b| == n + 2 && ToBase256(0, b[n], b[n + 1]) == ToBase64(q[m], q[m + 1], q[m + 2], 0) / 0x100
    decreases groups
  {
    if groups > 0 && |q| > 4 {
      DecodedRest(q[4..], groups - 1, extra);
    } else if extra == 2 {
      TwoSextets(q[0], q[1]);
    } else if extra == 3 {
      ThreeSextets(q[0], q[1], q[2]);
    }
  }

  lemma TwoSextets(a: Sextet, b: Sextet)
    ensures ByteA(a, b) == ToBase64(a, b, 0, 0) / 0x10000
  {
  }

  lemma ThreeSextets(a: Sextet, b: Sextet, c: Sextet)
    ensures ToBase256(0, ByteA(a, b), ByteB(b, c)) == ToBase64(a, b, c, 0) / 0x100
  {
  }

  /** The padding for `n` bytes. */
  function Fill(n: nat): string { match n % 3 case 1 => "==" case 2 => "=" case _ => "" }

  /** The encoding is the symbols of the sextets, and padding for the bytes that the last group lacks. */
  lemma {:induction false} EncodingIsSymbols(b: seq<Byte>)
    ensures Encoding(b) == Symbols(ToSextets(b)) + Fill(|b|)
  {
    if b == [] {
      assert Symbols([]) == [];
    } else if |b| <= 3 {
      FillGroup(|b|);
    } else {
      EncodingIsSymbols(b[3..]);
      FillLater(|b|);
      FillGroup(3);
      Regroup(GroupSextets(b[..3]), ToSextets(b[3..]), Fill(|b|));
    }
  }

  lemma FillGroup(n: nat)
    requires 1 <= n <= 3
    ensures Padding(n) == Fill(n)
  {
  }

  lemma FillLater(n: nat)
    requires n > 3
    ensures Fill(n - 3) == Fill(n)
  {
  }

  lemma Regroup(p: seq<Sextet>, q: seq<Sextet>, fill: string)
    ensures Symbols(p) + Fill(3) + (Symbols(q) + fill) == Symbols(p + q) + fill
  {
  }
}
