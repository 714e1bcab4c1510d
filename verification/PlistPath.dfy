/**
 Scanning an entry path.  The Rust port keeps an index into the trimmed path, the C original a
 pointer into a buffer in which it overwrites colons with NULs; both deliver `Tokens`.
 */
module PlistPath {
  import opened Options
  import opened PlistTree
  import opened PlistText

  lemma {:induction false} PiecesWithoutColon(s: string)
    requires forall k | 0 <= k < |s| :: s[k] != ':'
    ensures Pieces(s) == [s]
  {
    if s != [] {
      PiecesWithoutColon(s[1..]);
      assert s == [s[0]] + s[1..];
    }
  }

  lemma {:induction false} PiecesAtColon(s: string, e: nat)
    requires e < |s| && s[e] == ':' && forall k | 0 <= k < e :: s[k] != ':'
    ensures Pieces(s) == [s[..e]] + Pieces(s[e + 1..])
  {
    if e > 0 {
      PiecesAtColon(s[1..], e - 1);
      assert s[1..][e..] == s[e + 1..];
      assert [s[0]] + s[1..][..e - 1] == s[..e];
    }
  }

  lemma {:induction false} PiecesTail(s: string)
    ensures Pieces(s + ":") == Pieces(s) + [""]
  {
    if s == [] {
      assert s + ":" == ":";
      assert ":"[1..] == "";
    } else {
      PiecesTail(s[1..]);
      assert (s + ":")[1..] == s[1..] + ":";
    }
  }

  lemma {:induction false} NonEmptyConcat(a: seq<string>, b: seq<string>)
    ensures NonEmpty(a + b) == NonEmpty(a) + NonEmpty(b)
  {
    if a == [] {
      assert a + b == b && [] + NonEmpty(b) == NonEmpty(b);
    } else {
      assert (a + b)[0] == a[0] && (a + b)[1..] == a[1..] + b;
      NonEmptyConcat(a[1..], b);
      if a[0] != "" {
        var rest := NonEmpty(a[1..]);
        assert [a[0]] + (rest + NonEmpty(b)) == [a[0]] + rest + NonEmpty(b);
      }
    }
  }

  lemma ColonInFront(s: string)
    requires s != [] && s[0] == ':'
    ensures Tokens(s[1..]) == Tokens(s)
  {
    assert Pieces(s)[1..] == Pieces(s[1..]);
  }

  lemma ColonBehind(s: string)
    requires s != [] && s[|s| - 1] == ':'
    ensures Tokens(s[..|s| - 1]) == Tokens(s)
  {
    var u := s[..|s| - 1];
    assert s == u + ":";
    PiecesTail(u);
    NonEmptyConcat(Pieces(u), [""]);
    assert NonEmpty([""]) == [];
  }

  lemma PiecesFront(c: char, s: string)
    ensures Pieces([c] + s) == if c == ':' then [""] + Pieces(s) else [[c] + Pieces(s)[0]] + Pieces(s)[1..]
  {
    assert ([c] + s)[1..] == s;
  }

  lemma FirstOfTwo<T>(x: seq<T>, p: seq<seq<T>>, q: seq<seq<T>>)
    requires p != []
    ensures [x + (p + q)[0]] + (p + q)[1..] == [x + p[0]] + p[1..] + q
  {
    assert (p + q)[0] == p[0] && (p + q)[1..] == p[1..] + q;
  }

  lemma {:induction false} PiecesJoined(a: string, b: string)
    ensures Pieces(a + (":" + b)) == Pieces(a) + Pieces(b)
  {
    if a == [] {
      assert a + (":" + b) == [':'] + b;
      PiecesFront(':', b);
    } else {
      var c, u := a[0], a[1..];
      assert a == [c] + u && a + (":" + b) == [c] + (u + (":" + b));
      PiecesFront(c, u);
      PiecesFront(c, u + (":" + b));
      PiecesJoined(u, b);
      FirstOfTwo([c], Pieces(u), Pieces(b));
      assert [""] + (Pieces(u) + Pieces(b)) == [""] + Pieces(u) + Pieces(b);
    }
  }

  /** A path of names with colons between them. */
  function Path(names: seq<string>): string
    requires names != []
  {
    if |names| == 1 then names[0] else names[0] + (":" + Path(names[1..]))
  }

  lemma {:induction false} PathPieces(names: seq<string>)
    requires names != [] && forall i | 0 <= i < |names| :: names[i] != "" && ':' !in names[i]
    ensures NonEmpty(Pieces(Path(names))) == names
  {
    assert forall k | 0 <= k < |names[0]| :: names[0][k] in names[0];
    PiecesWithoutColon(names[0]);
    assert [names[0]][1..] == [];
    if |names| == 1 {
      assert names == [names[0]];
    } else {
      PathPieces(names[1..]);
      PiecesJoined(names[0], Path(names[1..]));
      NonEmptyConcat([names[0]], Pieces(Path(names[1..])));
      assert names == [names[0]] + names[1..];
    }
  }

  /** The tokens of a path are the names it is made of; the empty path has one empty token. */
  lemma PathTokens(names: seq<string>)
    requires names != [] && forall i | 0 <= i < |names| :: names[i] != "" && ':' !in names[i]
    ensures Tokens(Path(names)) == names && Tokens("") == [""]
  {
    PathPieces(names);
    assert [""][1..] == [];
  }

  /** A colon more, anywhere beside another one or at the ends, changes nothing. */
  lemma ColonIgnored(a: string, b: string)
    requires a == [] || a[|a| - 1] == ':' || b == [] || b[0] == ':'
    ensures Tokens(a + (":" + b)) == Tokens(a + b)
  {
    PiecesJoined(a, b);
    NonEmptyConcat(Pieces(a), Pieces(b));
    if a == [] {
      assert a + b == b;
    } else if b == [] {
      assert a + b == a;
    } else if b[0] == ':' {
      var u := b[1..];
      assert b == ":" + u && a + b == a + (":" + u);
      PiecesJoined(a, u);
      NonEmptyConcat(Pieces(a), Pieces(u));
      assert Pieces(b)[1..] == Pieces(u);
    } else {
      var u := a[..|a| - 1];
      assert a == u + ":" && a + b == u + (":" + b);
      PiecesJoined(u, b);
      PiecesTail(u);
      NonEmptyConcat(Pieces(u), Pieces(b));
      NonEmptyConcat(Pieces(u), [""]);
      assert [""][1..] == [];
    }
  }

  /** The head and tail colons are trimmed before the walk. */
  predicate Trimmed(s: string) { s == [] || s[|s| - 1] != ':' }

  method Trim(s: string) returns (buf: string)
    ensures Trimmed(buf) && Tokens(buf) == Tokens(s)
    ensures forall c | c in buf :: c in s
  {
    var head := s;
    while head != [] && head[0] == ':'
      invariant Tokens(head) == Tokens(s)
      invariant forall c | c in head :: c in s
      decreases |head|
    {
      ColonInFront(head);
      head := head[1..];
    }
    var len := |head|;
    assert head[..len] == head;
    while len > 0 && head[len - 1] == ':'
      invariant 0 <= len <= |head|
      invariant Tokens(head[..len]) == Tokens(s)
    {
      ColonBehind(head[..len]);
      assert head[..len][..len - 1] == head[..len - 1];
      len := len - 1;
    }
    buf := head[..len];
  }

  lemma {:induction false} HasNonEmptyPiece(s: string)
    requires s != [] && s[|s| - 1] != ':'
    ensures NonEmpty(Pieces(s)) != []
  {
    if s[0] == ':' {
      HasNonEmptyPiece(s[1..]);
    }
  }

  lemma {:induction false} ColonsInFront(s: string, a: nat)
    requires a <= |s| && forall k | 0 <= k < a :: s[k] == ':'
    ensures Tokens(s[a..]) == Tokens(s)
  {
    if a == 0 {
      assert s[0..] == s;
    } else {
      ColonInFront(s);
      ColonsInFront(s[1..], a - 1);
      assert s[1..][a - 1..] == s[a..];
    }
  }

  /** `s[a..e]` is what lies between the leading colons of `s` and its next colon or its end. */
  predicate FirstToken(s: string, a: nat, e: nat) {
    && a <= e <= |s|
    && (forall k | 0 <= k < a :: s[k] == ':')
    && (forall k | a <= k < e :: s[k] != ':')
    && (e < |s| ==> a < e && s[e] == ':')
  }

  /** The first token of a trimmed path, and the path that goes on behind it. */
  lemma TokensStep(s: string, a: nat, e: nat, tok: string, rest: string)
    requires Trimmed(s) && FirstToken(s, a, e) && e < |s| && tok == s[a..e] && rest == s[e + 1..]
    ensures Trimmed(rest) && Tokens(s) == [tok] + Tokens(rest)
  {
    ColonsInFront(s, a);
    var u := s[a..];
    PiecesAtColon(u, e - a);
    assert u[..e - a] == tok && u[e - a + 1..] == rest;
    assert rest[|rest| - 1] == s[|s| - 1];
    HasNonEmptyPiece(rest);
    assert Pieces(u)[1..] == Pieces(rest);
  }

  lemma TokensLast(s: string)
    requires forall k | 0 <= k < |s| :: s[k] != ':'
    ensures Tokens(s) == [s]
  {
    PiecesWithoutColon(s);
    assert NonEmpty([s]) == if s == "" then [] else [s] by {
      assert [s][1..] == [];
    }
  }

  lemma SliceOfSlice<T>(s: seq<T>, i: nat, z: nat, a: nat, b: nat)
    requires i <= z <= |s| && a <= b <= z - i
    ensures s[i..z][a..b] == s[i + a..i + b]
  {
    var m := s[i..z];
    assert forall k | a <= k < b :: m[k] == s[i + k];
    assert forall k | 0 <= k < b - a :: m[a..b][k] == m[a + k];
  }

  /** A token found between `i` and `z` of a buffer is the first token of that part. */
  ghost predicate Found(buf: string, i: nat, start: nat, end: nat, z: nat) {
    && i <= start <= end <= z <= |buf|
    && (forall k | i <= k < start :: buf[k] == ':')
    && (forall k | start <= k < end :: buf[k] != ':')
    && (end < z ==> start < end && buf[end] == ':')
  }

  lemma FoundIsFirst(buf: string, i: nat, start: nat, end: nat, z: nat)
    requires Found(buf, i, start, end, z)
    ensures FirstToken(buf[i..z], start - i, end - i)
    ensures buf[i..z][start - i..end - i] == buf[start..end]
    ensures end < z ==> buf[i..z][end - i + 1..] == buf[end + 1..z]
    ensures end == z ==> buf[i..z][start - i..] == buf[start..end]
  {
    SliceOfSlice(buf, i, z, start - i, end - i);
    if end < z {
      SliceOfSlice(buf, i, z, end - i + 1, z - i);
    }
  }

  lemma TokensCut(buf: string, i: nat, start: nat, end: nat, z: nat)
    requires Found(buf, i, start, end, z) && end < z && Trimmed(buf[i..z])
    ensures Trimmed(buf[end + 1..z]) && Tokens(buf[i..z]) == [buf[start..end]] + Tokens(buf[end + 1..z])
  {
    FoundIsFirst(buf, i, start, end, z);
    var s, tok, rest := buf[i..z], buf[start..end], buf[end + 1..z];
    TokensStep(s, start - i, end - i, tok, rest);
  }

  lemma TokensEnd(buf: string, i: nat, start: nat, z: nat)
    requires Found(buf, i, start, z, z)
    ensures Tokens(buf[i..z]) == [buf[start..z]]
  {
    FoundIsFirst(buf, i, start, z, z);
    ColonsInFront(buf[i..z], start - i);
    TokensLast(buf[start..z]);
  }

  /** The tokens still to come when the scan stands at index `p` of the trimmed path. */
  ghost predicate Pending(buf: string, p: Option<nat>, rest: seq<string>) {
    match p
    case None => rest == []
    case Some(i) => i <= |buf| && Trimmed(buf[i..|buf|]) && rest == Tokens(buf[i..|buf|])
  }

  /** Skip colons from index `i`, then go on to the next one. */
  method FindToken(buf: string, i: nat) returns (start: nat, colon: Option<nat>)
    requires i <= |buf|
    ensures Found(buf, i, start, if colon.Some? then start + colon.value else |buf|, |buf|)
    ensures colon.Some? ==> start + colon.value < |buf|
  {
    start := i;
    while start < |buf| && buf[start] == ':'
      invariant i <= start <= |buf|
      invariant forall k | i <= k < start :: buf[k] == ':'
    {
      start := start + 1;
    }
    colon := IndexOf(buf[start..], ':');
    assert forall k | start <= k < |buf| :: buf[k] == buf[start..][k - start];
  }

  /** One token from index `i` on, and the index to go on at, or none after the last token. */
  method NextToken(buf: string, i: nat, ghost rest: seq<string>) returns (tok: string, next: Option<nat>)
    requires Pending(buf, Some(i), rest)
    ensures rest != [] && tok == rest[0] && Pending(buf, next, rest[1..])
    ensures next.None? <==> |rest| == 1
  {
    var start, colon := FindToken(buf, i);
    match colon {
      case Some(off) =>
        var end := start + off;
        next := Some(end + 1);
        tok := buf[start..end];
        PendingCut(buf, i, start, end, rest);
      case None =>
        next := None;
        tok := buf[start..|buf|];
        PendingEnd(buf, i, start, rest);
    }
  }

  lemma PendingCut(buf: string, i: nat, start: nat, end: nat, rest: seq<string>)
    requires Pending(buf, Some(i), rest) && Found(buf, i, start, end, |buf|) && end < |buf|
    ensures |rest| > 1 && buf[start..end] == rest[0] && Pending(buf, Some(end + 1), rest[1..])
  {
    TokensCut(buf, i, start, end, |buf|);
    Uncons(rest, buf[start..end], Tokens(buf[end + 1..|buf|]));
  }

  lemma Uncons<T>(s: seq<T>, x: T, more: seq<T>)
    requires s == [x] + more
    ensures |s| == 1 + |more| && s[0] == x && s[1..] == more
  {
  }

  lemma PendingEnd(buf: string, i: nat, start: nat, rest: seq<string>)
    requires Pending(buf, Some(i), rest) && Found(buf, i, start, |buf|, |buf|)
    ensures rest == [buf[start..|buf|]] && rest[1..] == []
  {
    TokensEnd(buf, i, start, |buf|);
  }

  // ---- The C tokenizer ------------------------------------------------------------------------------

  /** A C string stored at `i`: the characters up to the terminating NUL at `z`. */
  ghost predicate CString(buf: array<char>, i: nat, z: nat)
    reads buf
  {
    i <= z < buf.Length && buf[z] == '\0' && forall k | i <= k < z :: buf[k] != '\0'
  }

  /** The loop that skips leading delimiters. */
  method SkipColons(buf: array<char>, str: nat, ghost z: nat) returns (tok: nat)
    requires CString(buf, str, z)
    ensures str <= tok <= z && buf[tok] != ':' && forall k | str <= k < tok :: buf[k] == ':'
  {
    tok := str;
    while buf[tok] == ':'
      invariant str <= tok <= z
      invariant forall k | str <= k < tok :: buf[k] == ':'
      decreases z - tok
    {
      tok := tok + 1;
    }
  }

  /** `strchr`: the first colon of the C string, or its end. */
  method FindColon(buf: array<char>, i: nat, ghost z: nat) returns (p: nat)
    requires CString(buf, i, z)
    ensures i <= p <= z && (p < z ==> buf[p] == ':') && forall k | i <= k < p :: buf[k] != ':'
  {
    p := i;
    while buf[p] != '\0' && buf[p] != ':'
      invariant i <= p <= z
      invariant forall k | i <= k < p :: buf[k] != ':'
      decreases z - p
    {
      p := p + 1;
    }
  }

  /**
   `strtok_empty`: skip delimiters, overwrite the next one with a NUL, and leave the pointer behind
   it.  The token is the C string at `tok`; nothing but that one delimiter is written.
   */
  method StrtokEmpty(buf: array<char>, str: nat, ghost z: nat) returns (tok: nat, next: Option<nat>, ghost stop: nat)
    requires CString(buf, str, z) && Trimmed(buf[str..z])
    modifies buf
    ensures str <= tok <= stop <= z && CString(buf, tok, stop)
    ensures forall k | 0 <= k < buf.Length && k != stop :: buf[k] == old(buf[k])
    ensures next.None? ==> stop == z && Tokens(old(buf[str..z])) == [buf[tok..stop]]
    ensures next.Some? ==>
              && next.value == stop + 1 <= z && CString(buf, next.value, z) && Trimmed(buf[next.value..z])
              && Tokens(old(buf[str..z])) == [buf[tok..stop]] + Tokens(buf[next.value..z])
  {
    tok := SkipColons(buf, str, z);
    var p := FindColon(buf, tok, z);
    stop := p;
    ghost var before := buf[..];
    assert before[str..z] == buf[str..z];
    assert Found(before, str, tok, p, z);
    if buf[p] == ':' {
      TokensCut(before, str, tok, p, z);
      buf[p] := '\0';
      next := Some(p + 1);
      assert buf[p + 1..z] == before[p + 1..z];
    } else {
      next := None;
      TokensEnd(before, str, tok, z);
    }
    assert buf[tok..stop] == before[tok..p];
  }

  /** The tokens still to come when the C pointer stands at `p` of a buffer that ends at `z`. */
  ghost predicate PendingC(buf: array<char>, p: Option<nat>, z: nat, rest: seq<string>)
    reads buf
  {
    match p
    case None => rest == []
    case Some(i) => CString(buf, i, z) && Trimmed(buf[i..z]) && rest == Tokens(buf[i..z])
  }

  /** A token handed out before is still intact in the buffer, in front of the pointer. */
  ghost predicate StillThere(buf: array<char>, tok: nat, stop: nat, text: string, p: Option<nat>)
    reads buf
  {
    CString(buf, tok, stop) && buf[tok..stop] == text && (p.Some? ==> stop < p.value)
  }

  /** One token of the C walk. */
  method TakeTokenC(buf: array<char>, str: nat, ghost z: nat, ghost rest: seq<string>,
                    ghost earlier: nat, ghost earlierEnd: nat, ghost text: string, ghost any: bool)
    returns (tok: nat, next: Option<nat>, ghost stop: nat)
    requires PendingC(buf, Some(str), z, rest)
    requires any ==> StillThere(buf, earlier, earlierEnd, text, Some(str))
    modifies buf
    ensures rest != [] && StillThere(buf, tok, stop, rest[0], next)
    ensures PendingC(buf, next, z, rest[1..]) && (next.None? <==> |rest| == 1)
    ensures any ==> StillThere(buf, earlier, earlierEnd, text, next)
  {
    tok, next, stop := StrtokEmpty(buf, str, z);
    assert any ==> buf[earlier..earlierEnd] == old(buf[earlier..earlierEnd]);
  }

  /** `strndup`: a private copy with a terminating NUL. */
  method Duplicate(s: string) returns (buf: array<char>)
    requires '\0' !in s
    ensures fresh(buf) && buf.Length == |s| + 1 && buf[..|s|] == s && CString(buf, 0, |s|)
  {
    buf := new char[|s| + 1];
    for i := 0 to |s|
      invariant forall k | 0 <= k < i :: buf[k] == s[k]
    {
      buf[i] := s[i];
    }
    buf[|s|] := '\0';
    assert forall k | 0 <= k < |s| :: s[k] in s;
  }

  /** Reading a C string out of a buffer. */
  method ReadCString(buf: array<char>, i: nat, ghost z: nat) returns (s: string)
    requires CString(buf, i, z)
    ensures s == buf[i..z]
  {
    var k := i;
    while buf[k] != '\0'
      invariant i <= k <= z
      decreases z - k
    {
      k := k + 1;
    }
    s := buf[i..k];
  }

  const INT_MIN: int := -0x8000_0000
  const INT_MAX: int := 0x7FFF_FFFF

  /** Tokens whose index the C library's `atoi` reads the way the port does. */
  predicate PlainIndex(tok: string) {
    PlainBlanks(tok) && INT_MIN <= Atoi(tok) <= INT_MAX
  }

  lemma {:induction false} DecimalGrows(s: string, acc: int)
    requires acc >= 0
    ensures Decimal(s, acc) >= acc
  {
    if s != [] && IsDigit(s[0]) {
      DecimalGrows(s[1..], 10 * acc + DigitValue(s[0]));
    }
  }

  method SkipBlanksC(b: string) returns (i: nat)
    ensures i <= |b| && b[i..] == SkipSpacesC(b)
  {
    i := 0;
    while i < |b| && IsSpaceC(b[i])
      invariant 0 <= i <= |b|
      invariant SkipSpacesC(b) == SkipSpacesC(b[i..])
    {
      assert b[i..][1..] == b[i + 1..];
      i := i + 1;
    }
  }

  /** The digit loop in C, in a `long`: nothing is clamped, and nothing overflows while the number fits an `int`. */
  method ReadDigitsC(b: string, start: nat) returns (v: int)
    requires start <= |b| && Decimal(b[start..], 0) <= -INT_MIN
    ensures v == Decimal(b[start..], 0) && 0 <= v <= -INT_MIN
  {
    var i := start;
    v := 0;
    while i < |b| && IsDigit(b[i])
      invariant start <= i <= |b|
      invariant 0 <= v <= -INT_MIN
      invariant Decimal(b[start..], 0) == Decimal(b[i..], v)
    {
      assert b[i..][1..] == b[i + 1..];
      DecimalGrows(b[i + 1..], 10 * v + DigitValue(b[i]));
      v := 10 * v + DigitValue(b[i]);
      i := i + 1;
    }
  }

  /** `atoi` of the C library. */
  method ReadIndexC(b: string) returns (n: int)
    requires PlainIndex(b)
    ensures n == Atoi(b) && INT_MIN <= n <= INT_MAX
  {
    BlanksAgree(b);
    var i := SkipBlanksC(b);
    var neg := i < |b| && b[i] == '-';
    if i < |b| && (b[i] == '-' || b[i] == '+') {
      assert b[i..][1..] == b[i + 1..];
      i := i + 1;
    }
    var v := ReadDigitsC(b, i);
    n := if neg then -v else v;
  }
}
