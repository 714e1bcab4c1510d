/**
 The text side of PlistBuddy: words and their escapes, values and theirs, and the command line.
 The escape grammar of a word differs from the escape grammar of a value.  The scanning loops are
 methods, proved equal to the recursive readings given first.
 */
module PlistText {
  import opened Options
  import opened Numbers
  import opened PlistTree

  // ---- Words --------------------------------------------------------------------------------------

  /** From the first character that is not a blank on; nothing when only blanks are left. */
  function NextWord(s: string): Option<string> {
    var u := SkipSpaces(s);
    if u == [] then None else Some(u)
  }

  datatype Word = Word(text: string, rest: Option<string>)

  /** What follows an opening quote: the unescaped text, whether it was closed, and what is left. */
  datatype Scan = Scan(text: string, closed: bool, rest: string)

  function Unit(c: char): string {
    if c == '"' then "\""
    else if c == 'n' then "\n"
    else if c == 't' then "\t"
    else ['\\', c]
  }

  function ScanQuoted(s: string): Scan
    decreases |s|
  {
    if s == [] then Scan("", false, "")
    else if s[0] == '\\' && |s| > 1 then
      var q := ScanQuoted(s[2..]);
      q.(text := Unit(s[1]) + q.text)
    else if s[0] == '"' then Scan("", true, s[1..])
    else
      var q := ScanQuoted(s[1..]);
      q.(text := [s[0]] + q.text)
  }

  /** A scan whose first characters have already been read. */
  function Behind(out: string, q: Scan): Scan { q.(text := out + q.text) }

  lemma BehindTwice(out: string, u: string, q: Scan)
    ensures Behind(out, Behind(u, q)) == Behind(out + u, q)
  {
    assert out + (u + q.text) == (out + u) + q.text;
  }

  lemma BehindNothing(q: Scan)
    ensures Behind("", q) == q
  {
    assert "" + q.text == q.text;
  }

  lemma ScanEscape(c: char, tail: string)
    ensures ScanQuoted(['\\', c] + tail) == Behind(Unit(c), ScanQuoted(tail))
  {
    assert (['\\', c] + tail)[2..] == tail;
  }

  lemma ScanPlain(c: char, tail: string)
    requires c != '"' && (c == '\\' ==> tail == [])
    ensures ScanQuoted([c] + tail) == Behind([c], ScanQuoted(tail))
  {
    assert ([c] + tail)[1..] == tail;
  }

  lemma ScanClose(tail: string)
    ensures ScanQuoted(['"'] + tail) == Scan("", true, tail)
  {
    assert (['"'] + tail)[1..] == tail;
  }

  /** `s` cut at its first `c`; `None` when `c` does not occur. */
  function IndexOf(s: string, c: char): (i: Option<nat>)
    ensures i.Some? ==> i.value < |s| && s[i.value] == c && forall k | 0 <= k < i.value :: s[k] != c
    ensures i.None? ==> forall k | 0 <= k < |s| :: s[k] != c
  {
    if s == [] then None
    else if s[0] == c then Some(0)
    else match IndexOf(s[1..], c)
      case None => None
      case Some(i) => Some(i + 1)
  }

  /** One argument and the rest of the line; nothing when the quotes are not closed. */
  function GetWord(cmd: string): Option<Word> {
    if cmd != [] && cmd[0] == '"' then
      var q := ScanQuoted(cmd[1..]);
      if !q.closed && q.text != [] then None else Some(Word(q.text, NextWord(q.rest)))
    else match IndexOf(cmd, ' ')
      case None => Some(Word(cmd, None))
      case Some(p) => Some(Word(cmd[..p], NextWord(cmd[p..])))
  }

  /** The loop over the quoted part of a word, one character or one escape at a time. */
  method ReadWord(cmd: string) returns (w: Option<Word>)
    ensures w == GetWord(cmd)
  {
    if cmd != [] && cmd[0] == '"' {
      var out: string, closed, i := [], false, 1;
      ghost var q := ScanQuoted(cmd[1..]);
      BehindNothing(q);
      while i < |cmd| && !closed
        invariant 1 <= i <= |cmd|
        invariant closed ==> i < |cmd| && q == Scan(out, true, cmd[i + 1..])
        invariant !closed ==> q == Behind(out, ScanQuoted(cmd[i..]))
        decreases |cmd| - i, !closed
      {
        if cmd[i] == '\\' && i + 1 < |cmd| {
          assert cmd[i..] == ['\\', cmd[i + 1]] + cmd[i + 2..];
          ScanEscape(cmd[i + 1], cmd[i + 2..]);
          BehindTwice(out, Unit(cmd[i + 1]), ScanQuoted(cmd[i + 2..]));
          i := i + 1;
          out := out + Unit(cmd[i]);
          i := i + 1;
        } else {
          assert cmd[i..] == [cmd[i]] + cmd[i + 1..];
          if cmd[i] == '"' {
            ScanClose(cmd[i + 1..]);
            assert out + "" == out;
            closed := true;
          } else {
            ScanPlain(cmd[i], cmd[i + 1..]);
            BehindTwice(out, [cmd[i]], ScanQuoted(cmd[i + 1..]));
            out := out + [cmd[i]];
            i := i + 1;
          }
        }
      }
      if !closed && out != [] {
        return None;
      }
      var rest := if i + 1 <= |cmd| then cmd[i + 1..] else [];
      w := Some(Word(out, NextWord(rest)));
    } else {
      match IndexOf(cmd, ' ') {
        case None => w := Some(Word(cmd, None));
        case Some(p) => w := Some(Word(cmd[..p], NextWord(cmd[p..])));
      }
    }
  }

  /** `isspace` of the C library also counts a vertical tab. */
  predicate IsSpaceC(c: char) { IsSpace(c) || c == '\U{000B}' }

  function SkipSpacesC(s: string): (u: string)
    ensures |u| <= |s|
  {
    if s != [] && IsSpaceC(s[0]) then SkipSpacesC(s[1..]) else s
  }

  function NextWordC(s: string): Option<string> {
    var u := SkipSpacesC(s);
    if u == [] then None else Some(u)
  }

  /** No vertical tab stands where blanks are skipped. */
  predicate PlainBlanks(s: string) {
    var u := SkipSpaces(s);
    u == [] || u[0] != '\U{000B}'
  }

  /** Both versions skip the same blanks if and only if no vertical tab stands right behind the others. */
  lemma {:induction false} BlanksAgree(s: string)
    ensures SkipSpacesC(s) == SkipSpaces(s) <==> PlainBlanks(s)
  {
    if s != [] && IsSpace(s[0]) {
      BlanksAgree(s[1..]);
    }
  }

  /** The switch on the character after a backslash, writing at `j` and advancing it. */
  method StoreUnit(out: array<char>, j: nat, c: char) returns (j': nat)
    requires j + 2 <= out.Length
    modifies out
    ensures j' == j + |Unit(c)|
    ensures out[..j'] == old(out[..j]) + Unit(c)
  {
    match c {
      case '"' => out[j] := '"'; j' := j + 1;
      case 'n' => out[j] := '\n'; j' := j + 1;
      case 't' => out[j] := '\t'; j' := j + 1;
      case _ => out[j] := '\\'; out[j + 1] := c; j' := j + 2;
    }
  }

  /** The state of a scan: `done` has been read up to index `i`, and the rest makes up the word. */
  ghost predicate Filling(cmd: string, i: nat, done: string) {
    && 1 <= i <= |cmd| && |done| < i
    && ScanQuoted(cmd[1..]) == Behind(done, ScanQuoted(cmd[i..]))
    && '\0' !in done && (i > 1 ==> done != [])
  }

  lemma FillEscape(cmd: string, i: nat, done: string)
    requires Filling(cmd, i, done) && i + 1 < |cmd| && cmd[i] == '\\' && '\0' !in cmd
    ensures Filling(cmd, i + 2, done + Unit(cmd[i + 1]))
  {
    assert cmd[i..] == ['\\', cmd[i + 1]] + cmd[i + 2..];
    assert cmd[i + 1] in cmd;
    ScanEscape(cmd[i + 1], cmd[i + 2..]);
    BehindTwice(done, Unit(cmd[i + 1]), ScanQuoted(cmd[i + 2..]));
  }

  lemma FillPlain(cmd: string, i: nat, done: string)
    requires Filling(cmd, i, done) && i < |cmd| && '\0' !in cmd
    requires cmd[i] != '"' && (cmd[i] == '\\' ==> i + 1 == |cmd|)
    ensures Filling(cmd, i + 1, done + [cmd[i]])
  {
    assert cmd[i..] == [cmd[i]] + cmd[i + 1..];
    assert cmd[i] in cmd;
    ScanPlain(cmd[i], cmd[i + 1..]);
    BehindTwice(done, [cmd[i]], ScanQuoted(cmd[i + 1..]));
  }

  lemma FillClose(cmd: string, i: nat, done: string)
    requires Filling(cmd, i, done) && i < |cmd| && cmd[i] == '"'
    ensures ScanQuoted(cmd[1..]) == Scan(done, true, cmd[i + 1..])
  {
    assert cmd[i..] == ['"'] + cmd[i + 1..];
    ScanClose(cmd[i + 1..]);
    assert done + "" == done;
  }

  lemma FillEnd(cmd: string, done: string)
    requires Filling(cmd, |cmd|, done)
    ensures !ScanQuoted(cmd[1..]).closed && ScanQuoted(cmd[1..]).text == done
  {
    assert cmd[|cmd|..] == [] && done + "" == done;
  }

  /** The C loop over a quoted word: fill `out` by index, and write a NUL at the closing quote. */
  method FillWordC(cmd: string, out: array<char>) returns (i: nat, j: nat)
    requires '\0' !in cmd
    requires cmd != [] && out.Length == |cmd| + 1
    modifies out
    ensures 1 <= i <= |cmd| && j <= out.Length
    ensures var q := ScanQuoted(cmd[1..]);
            if q.closed then
              i < |cmd| && 0 < j && out[j - 1] == '\0' && out[..j - 1] == q.text && q.rest == cmd[i + 1..]
            else
              i == |cmd| && out[..j] == q.text && '\0' !in out[..j] && (|cmd| > 1 ==> j > 0)
  {
    i, j := 1, 0;
    BehindNothing(ScanQuoted(cmd[1..]));
    while i < |cmd|
      invariant 1 <= i <= |cmd| && j < i
      invariant Filling(cmd, i, out[..j])
    {
      if cmd[i] == '\\' && i + 1 < |cmd| {
        FillEscape(cmd, i, out[..j]);
        i := i + 1;
        j := StoreUnit(out, j, cmd[i]);
        i := i + 1;
      } else if cmd[i] == '"' {
        FillClose(cmd, i, out[..j]);
        ghost var done := out[..j];
        out[j] := '\0';
        j := j + 1;
        assert out[..j - 1] == done;
        return;
      } else {
        FillPlain(cmd, i, out[..j]);
        ghost var done := out[..j];
        out[j] := cmd[i];
        j := j + 1;
        assert out[..j] == done + [cmd[i]];
        i := i + 1;
      }
    }
    FillEnd(cmd, out[..j]);
  }

  /** What follows a word on its line, blanks included. */
  function LineAfter(cmd: string): string {
    if cmd != [] && cmd[0] == '"' then ScanQuoted(cmd[1..]).rest
    else match IndexOf(cmd, ' ')
      case None => []
      case Some(p) => cmd[p..]
  }

  /**
   The C version fills a buffer of the command's own size by index and marks the end with a NUL.
   The index never overruns that buffer, and the word it holds is the one `GetWord` reads.
   */
  method ReadWordC(cmd: string) returns (w: Option<Word>)
    requires '\0' !in cmd && PlainBlanks(LineAfter(cmd)) && cmd != "\""
    ensures w == GetWord(cmd)
  {
    if cmd != [] && cmd[0] == '"' {
      var out := new char[|cmd| + 1];
      var i, j := FillWordC(cmd, out);
      assert j > 0 ==> out[j - 1] == out[..j][j - 1];
      if j > 0 && out[j - 1] != '\0' {
        return None;
      }
      BlanksAgree(cmd[i + 1..]);
      w := Some(Word(out[..j - 1], NextWordC(cmd[i + 1..])));
    } else {
      match IndexOf(cmd, ' ') {
        case None => w := Some(Word(cmd, None));
        case Some(p) =>
          BlanksAgree(cmd[p..]);
          w := Some(Word(cmd[..p], NextWordC(cmd[p..])));
      }
    }
  }

  /** A backslash in a quoted word survives only together with a next character that is no escape. */
  predicate Paired(w: string)
    decreases |w|
  {
    if w == [] then true
    else if w[0] == '\\' then |w| > 1 && w[1] != '"' && w[1] != 'n' && w[1] != 't' && Paired(w[2..])
    else Paired(w[1..])
  }

  function QuoteBody(w: string): string
    decreases |w|
  {
    if w == [] then ""
    else if w[0] == '\\' && |w| > 1 then w[..2] + QuoteBody(w[2..])
    else if w[0] == '"' then "\\\"" + QuoteBody(w[1..])
    else [w[0]] + QuoteBody(w[1..])
  }

  function QuoteWord(w: string): string { "\"" + QuoteBody(w) + "\"" }

  /** How much of a word one unit of its quoted form stands for. */
  function UnitLength(w: string): nat
    requires w != []
    ensures 1 <= UnitLength(w) <= |w|
  {
    if w[0] == '\\' && |w| > 1 then 2 else 1
  }

  lemma ScanUnitEscape(w: string, tail: string)
    requires Paired(w) && w != [] && w[0] == '\\'
    ensures Paired(w[2..])
    ensures ScanQuoted(QuoteBody(w) + tail) == Behind(w[..2], ScanQuoted(QuoteBody(w[2..]) + tail))
  {
    var rest := QuoteBody(w[2..]) + tail;
    assert w[..2] == ['\\', w[1]];
    assert QuoteBody(w) + tail == ['\\', w[1]] + rest;
    ScanEscape(w[1], rest);
  }

  lemma ScanUnitPlain(w: string, tail: string)
    requires Paired(w) && w != [] && w[0] != '\\'
    ensures Paired(w[1..])
    ensures ScanQuoted(QuoteBody(w) + tail) == Behind(w[..1], ScanQuoted(QuoteBody(w[1..]) + tail))
  {
    var rest := QuoteBody(w[1..]) + tail;
    assert w[..1] == [w[0]];
    if w[0] == '"' {
      assert QuoteBody(w) + tail == ['\\', '"'] + rest;
      ScanEscape('"', rest);
    } else {
      assert QuoteBody(w) + tail == [w[0]] + rest;
      ScanPlain(w[0], rest);
    }
  }

  lemma ScanUnit(w: string, tail: string)
    requires Paired(w) && w != []
    ensures var n := UnitLength(w);
            && Paired(w[n..])
            && ScanQuoted(QuoteBody(w) + tail) == Behind(w[..n], ScanQuoted(QuoteBody(w[n..]) + tail))
  {
    if w[0] == '\\' {
      ScanUnitEscape(w, tail);
    } else {
      ScanUnitPlain(w, tail);
    }
  }

  lemma {:induction false} ScanBody(w: string, rest: string)
    requires Paired(w)
    ensures ScanQuoted(QuoteBody(w) + ("\"" + rest)) == Scan(w, true, rest)
    decreases |w|
  {
    var tail := "\"" + rest;
    if w == [] {
      assert QuoteBody(w) + tail == ['"'] + rest;
      ScanClose(rest);
    } else {
      var n := UnitLength(w);
      ScanUnit(w, tail);
      ScanBody(w[n..], rest);
      assert w == w[..n] + w[n..];
    }
  }

  lemma {:induction false} ScanPairs(s: string)
    requires ScanQuoted(s).closed
    ensures Paired(ScanQuoted(s).text)
    decreases |s|
  {
    if s[0] == '\\' && |s| > 1 {
      ScanPairs(s[2..]);
      var text, more := ScanQuoted(s).text, ScanQuoted(s[2..]).text;
      if |Unit(s[1])| == 1 {
        assert text[1..] == more;
      } else {
        assert text[2..] == more;
      }
    } else if s[0] != '"' {
      ScanPairs(s[1..]);
      assert ScanQuoted(s).text[1..] == ScanQuoted(s[1..]).text;
    }
  }

  lemma {:induction false} NoBackslashIsPaired(w: string)
    requires '\\' !in w
    ensures Paired(w)
  {
    if w != [] {
      assert w[0] in w;
      NoBackslashIsPaired(w[1..]);
    }
  }

  /** A quoted word is read back exactly, and the rest of the line is what follows the closing quote. */
  lemma QuotedWordReads(w: string, rest: string)
    requires Paired(w)
    ensures GetWord(QuoteWord(w) + rest) == Some(Word(w, NextWord(rest)))
  {
    var body := QuoteBody(w);
    var cmd := QuoteWord(w) + rest;
    assert cmd[1..] == body + ("\"" + rest);
    assert ScanQuoted(cmd[1..]) == Scan(w, true, rest) by {
      ScanBody(w, rest);
    }
  }

  /** The quoted form can express a word exactly when its backslashes are paired. */
  lemma QuotedWordRange(w: string)
    ensures Paired(w) <==>
            exists cmd :: cmd != [] && cmd[0] == '"' && GetWord(cmd).Some? && GetWord(cmd).value.text == w
  {
    if Paired(w) {
      QuotedWordReads(w, "");
      var cmd := QuoteWord(w) + "";
      assert cmd[0] == '"' && GetWord(cmd).value.text == w;
    }
    forall cmd | cmd != [] && cmd[0] == '"' && GetWord(cmd).Some? && GetWord(cmd).value.text == w
      ensures Paired(w)
    {
      if ScanQuoted(cmd[1..]).closed {
        ScanPairs(cmd[1..]);
      }
    }
  }

  // ---- Values -------------------------------------------------------------------------------------

  /** The number and date readers of the C library, which this model does not look into. */
  datatype Libc = Libc(
    toInteger: string -> Option<int>,
    toReal: string -> Option<real>,
    toDate: string -> Option<real>)

  function Meaning(c: char): char {
    if c == 'n' then '\n' else if c == 't' then '\t' else c
  }

  function Unescape(s: string): Option<string>
    decreases |s|
  {
    if s == [] then Some("")
    else if s[0] != '\\' then
      match Unescape(s[1..])
      case None => None
      case Some(u) => Some([s[0]] + u)
    else if |s| == 1 then None
    else
      match Unescape(s[2..])
      case None => None
      case Some(u) => Some([Meaning(s[1])] + u)
  }

  /** The rest of a text whose first characters have already been unescaped. */
  function After(out: string, r: Option<string>): Option<string> {
    match r
    case None => None
    case Some(u) => Some(out + u)
  }

  lemma AfterTwice(out: string, u: string, r: Option<string>)
    ensures After(out, After(u, r)) == After(out + u, r)
  {
    if r.Some? {
      assert out + (u + r.value) == (out + u) + r.value;
    }
  }

  lemma UnescapePlain(c: char, tail: string)
    requires c != '\\'
    ensures Unescape([c] + tail) == After([c], Unescape(tail))
  {
    assert ([c] + tail)[1..] == tail;
  }

  lemma UnescapeEscaped(c: char, tail: string)
    ensures Unescape(['\\', c] + tail) == After([Meaning(c)], Unescape(tail))
  {
    assert (['\\', c] + tail)[2..] == tail;
  }

  /** A value text without its quotes and escapes; a lone quote stands for the empty text. */
  function Unquote(s: string): Option<string> {
    if s == [] || s[0] != '"' then Unescape(s)
    else if s[|s| - 1] != '"' then None
    else if |s| == 1 then Some("")
    else Unescape(s[1..|s| - 1])
  }

  method ReadText(s: string) returns (r: Option<string>)
    ensures r == Unquote(s)
  {
    var quoted := s != [] && s[0] == '"';
    var i, len := 0, |s|;
    if quoted {
      if s[len - 1] != '"' {
        return None;
      }
      i, len := 1, len - 1;
    }
    if i > len {
      return Some([]);
    }
    var out: string := [];
    ghost var body := s[i..len];
    assert s[0..|s|] == s;
    assert Unescape(body).Some? ==> "" + Unescape(body).value == Unescape(body).value;
    while i < len
      invariant 0 <= i <= len <= |s|
      invariant Unescape(body) == After(out, Unescape(s[i..len]))
    {
      if s[i] != '\\' {
        assert s[i..len] == [s[i]] + s[i + 1..len];
        UnescapePlain(s[i], s[i + 1..len]);
        AfterTwice(out, [s[i]], Unescape(s[i + 1..len]));
        out := out + [s[i]];
      } else {
        if i + 1 == len {
          return None;
        }
        assert s[i..len] == ['\\', s[i + 1]] + s[i + 2..len];
        UnescapeEscaped(s[i + 1], s[i + 2..len]);
        AfterTwice(out, [Meaning(s[i + 1])], Unescape(s[i + 2..len]));
        i := i + 1;
        out := out + [Meaning(s[i])];
      }
      i := i + 1;
    }
    assert s[i..len] == [] && out + "" == out;
    r := Some(out);
  }

  function Lower(c: char): char {
    if 'A' <= c <= 'Z' then c - 'A' + 'a' else c
  }

  predicate EqIgnoreCase(a: string, b: string) {
    |a| == |b| && forall i | 0 <= i < |a| :: Lower(a[i]) == Lower(b[i])
  }

  /** The value a text stands for under a type; data keeps the text as it was typed. */
  function ParseValue(c: Libc, ty: PropertyType, text: string): (r: Option<Scalar>)
    ensures r.Some? ==> InferType(Leaf(r.value)) == ty
  {
    match ty
    case StringType => (match Unquote(text) case None => None case Some(u) => Some(Str(u)))
    case DataType => (match Unquote(text) case None => None case Some(_) => Some(Data(text)))
    case BoolType => Some(Bool(EqIgnoreCase(text, "true") || EqIgnoreCase(text, "yes") || text == "1"))
    case IntegerType => (match c.toInteger(text) case None => None case Some(n) => Some(Integer(n)))
    case RealType => (match c.toReal(text) case None => None case Some(x) => Some(Real(x)))
    case DateType => (match c.toDate(text) case None => None case Some(d) => Some(Date(d)))
    case _ => None
  }

  function Escape(v: string): string {
    if v == [] then ""
    else
      (if v[0] == '"' then "\\\"" else if v[0] == '\\' then "\\\\"
       else if v[0] == '\n' then "\\n" else if v[0] == '\t' then "\\t" else [v[0]])
      + Escape(v[1..])
  }

  function Quote(v: string): string { "\"" + Escape(v) + "\"" }

  lemma {:induction false} UnescapeEscape(v: string)
    ensures Unescape(Escape(v)) == Some(v)
  {
    if v != [] {
      UnescapeEscape(v[1..]);
      assert v == [v[0]] + v[1..];
      if v[0] == '"' {
        UnescapeEscaped('"', Escape(v[1..]));
      } else if v[0] == '\\' {
        UnescapeEscaped('\\', Escape(v[1..]));
      } else if v[0] == '\n' {
        UnescapeEscaped('n', Escape(v[1..]));
      } else if v[0] == '\t' {
        UnescapeEscaped('t', Escape(v[1..]));
      } else {
        UnescapePlain(v[0], Escape(v[1..]));
      }
    }
  }

  /** Every string survives quoting and being read as a value. */
  lemma UnquoteQuote(v: string)
    ensures Unquote(Quote(v)) == Some(v)
  {
    UnescapeEscape(v);
    assert Quote(v)[1..|Quote(v)| - 1] == Escape(v);
  }

  // ---- Numbers in paths ---------------------------------------------------------------------------

  lemma Saturates(exact: int, d: int)
    requires 0 <= exact && 0 <= d
    ensures Min(Min(Min(exact, I64_MAX) * 10, I64_MAX) + d, I64_MAX) == Min(10 * exact + d, I64_MAX)
  {
  }

  /** The digits from `i` on, in a sum that saturates. */
  method ReadDigits(b: string, i: nat) returns (v: int)
    requires i <= |b|
    ensures v == Min(Decimal(b[i..], 0), I64_MAX)
  {
    v := 0;
    var j := i;
    ghost var exact := 0;
    while j < |b| && IsDigit(b[j])
      invariant i <= j <= |b|
      invariant 0 <= exact && v == Min(exact, I64_MAX)
      invariant Decimal(b[i..], 0) == Decimal(b[j..], exact)
    {
      assert b[j..][1..] == b[j + 1..];
      var d := DigitValue(b[j]);
      Saturates(exact, d);
      v := Min(Min(v * 10, I64_MAX) + d, I64_MAX);
      exact := 10 * exact + d;
      j := j + 1;
    }
  }

  /** Blanks, a sign and digits: the index that a token denotes. */
  method ReadIndex(b: string) returns (n: int)
    ensures n == Atoi(b)
  {
    var i := 0;
    while i < |b| && IsSpace(b[i])
      invariant 0 <= i <= |b|
      invariant SkipSpaces(b) == SkipSpaces(b[i..])
    {
      assert b[i..][1..] == b[i + 1..];
      i := i + 1;
    }
    var neg := false;
    ghost var u := b[i..];
    assert u == SkipSpaces(b);
    if i < |b| && (b[i] == '-' || b[i] == '+') {
      neg := b[i] == '-';
      i := i + 1;
      assert b[i..] == u[1..];
    }
    var v := ReadDigits(b, i);
    n := if neg then -v else v;
  }

  /** The decimal numeral of a natural number. */
  function Numeral(n: nat): string {
    if n < 10 then [n as char + '0'] else Numeral(n / 10) + [(n % 10) as char + '0']
  }

  lemma {:induction false} DecimalNumeral(n: nat, rest: string)
    requires rest == [] || !IsDigit(rest[0])
    ensures Decimal(Numeral(n) + rest, 0) == n
    ensures IsDigit(Numeral(n)[0])
  {
    if n < 10 {
      assert (Numeral(n) + rest)[1..] == rest;
    } else {
      NumeralAppend(n / 10, [(n % 10) as char + '0'] + rest);
      assert Numeral(n) + rest == Numeral(n / 10) + ([(n % 10) as char + '0'] + rest);
      assert ([(n % 10) as char + '0'] + rest)[1..] == rest;
      DecimalNumeral(n / 10, "");
    }
  }

  lemma {:induction false} NumeralAppend(n: nat, rest: string)
    ensures Decimal(Numeral(n) + rest, 0) == Decimal(rest, n)
  {
    if n < 10 {
      assert (Numeral(n) + rest)[1..] == rest;
    } else {
      var d := [(n % 10) as char + '0'];
      NumeralAppend(n / 10, d + rest);
      assert Numeral(n) + rest == Numeral(n / 10) + (d + rest);
      assert (d + rest)[1..] == rest;
    }
  }

  /** The numeral of an index names that index. */
  lemma AtoiNumeral(n: nat)
    requires n <= I64_MAX
    ensures Atoi(Numeral(n)) == n
  {
    DecimalNumeral(n, "");
    assert Numeral(n) + "" == Numeral(n);
  }

  /**
   A sign, a numeral and anything that is no digit: the signed number, clamped to 64 bits; blanks in
   front do not count.
   */
  lemma AtoiSigned(n: nat, rest: string, blank: char, s: string)
    requires rest == [] || !IsDigit(rest[0])
    ensures Atoi(Numeral(n) + rest) == Min(n, I64_MAX)
    ensures Atoi("+" + (Numeral(n) + rest)) == Min(n, I64_MAX)
    ensures Atoi("-" + (Numeral(n) + rest)) == -Min(n, I64_MAX)
    ensures IsSpace(blank) ==> Atoi([blank] + s) == Atoi(s)
    ensures s == [] || !(IsSpace(s[0]) || IsDigit(s[0]) || s[0] == '-' || s[0] == '+') ==> Atoi(s) == 0
  {
    DecimalNumeral(n, rest);
    var u := Numeral(n) + rest;
    assert ("+" + u)[1..] == u && ("-" + u)[1..] == u && ([blank] + s)[1..] == s;
    assert u[0] == Numeral(n)[0];
  }

  /** What the escapes of a quoted word stand for. */
  lemma WordEscapes(c: char, tail: string)
    ensures ScanQuoted("\\n" + tail).text == "\n" + ScanQuoted(tail).text
    ensures ScanQuoted("\\t" + tail).text == "\t" + ScanQuoted(tail).text
    ensures ScanQuoted("\\\"" + tail).text == "\"" + ScanQuoted(tail).text
    ensures c != 'n' && c != 't' && c != '"' ==> ScanQuoted(['\\', c] + tail).text == ['\\', c] + ScanQuoted(tail).text
  {
    ScanEscape('n', tail);
    ScanEscape('t', tail);
    ScanEscape('"', tail);
    ScanEscape(c, tail);
    assert "\\n" == ['\\', 'n'] && "\\t" == ['\\', 't'] && "\\\"" == ['\\', '"'];
  }

  /** What the escapes of a value stand for; a backslash at the end makes it no value. */
  lemma ValueEscapes(c: char, tail: string)
    ensures Unescape("\\n" + tail) == After("\n", Unescape(tail))
            && Unescape("\\t" + tail) == After("\t", Unescape(tail))
    ensures c != 'n' && c != 't' ==> Unescape(['\\', c] + tail) == After([c], Unescape(tail))
    ensures Unescape("\\") == None
  {
    UnescapeEscaped('n', tail);
    UnescapeEscaped('t', tail);
    UnescapeEscaped(c, tail);
    assert "\\n" == ['\\', 'n'] && "\\t" == ['\\', 't'];
  }

  /** A text without backslashes and without a quote in front is the value as it stands. */
  lemma {:induction false} PlainText(s: string)
    requires '\\' !in s
    ensures Unescape(s) == Some(s) && (s == [] || s[0] != '"' ==> Unquote(s) == Some(s))
  {
    if s != [] {
      assert s[0] in s && s == [s[0]] + s[1..];
      PlainText(s[1..]);
    }
  }
}
