/**
 Property lists as values, the slots inside them, and the walk that a colon-separated entry path
 takes through them.  Everything here is pure: `PlistHeap` ties it to mutable containers and
 `PlistEditor` to the commands that change those containers in place.
 */
module PlistTree {
  import opened Options
  import opened Numbers

  /** The non-container values; `Date` keeps the absolute time, `Data` the text it was made from. */
  datatype Scalar =
    | Str(text: string)
    | Bool(truth: bool)
    | Integer(n: int)
    | Real(x: real)
    | Date(at: real)
    | Data(raw: string)

  datatype Plist =
    | Leaf(atom: Scalar)
    | Dict(entries: map<string, Plist>)
    | Array(items: seq<Plist>)

  datatype PropertyType =
    | UnknownType | StringType | ArrayType | DictType | BoolType | RealType | IntegerType | DateType | DataType

  function InferType(t: Plist): PropertyType {
    match t
    case Dict(_) => DictType
    case Array(_) => ArrayType
    case Leaf(Str(_)) => StringType
    case Leaf(Bool(_)) => BoolType
    case Leaf(Integer(_)) => IntegerType
    case Leaf(Real(_)) => RealType
    case Leaf(Date(_)) => DateType
    case Leaf(Data(_)) => DataType
  }

  /** One place inside a container. */
  datatype Slot = Key(key: string) | Index(index: int)

  predicate Has(t: Plist, s: Slot) {
    match t
    case Leaf(_) => false
    case Dict(m) => s.Key? && s.key in m
    case Array(xs) => s.Index? && 0 <= s.index < |xs|
  }

  function At(t: Plist, s: Slot): (u: Plist)
    requires Has(t, s)
    ensures u < t
  {
    if t.Dict? then t.entries[s.key] else t.items[s.index]
  }

  /** `t` with the child in slot `s` replaced. */
  function With(t: Plist, s: Slot, u: Plist): Plist
    requires Has(t, s)
  {
    if t.Dict? then Dict(t.entries[s.key := u]) else Array(t.items[s.index := u])
  }

  type Route = seq<Slot>

  function Get(t: Plist, r: Route): Option<Plist> {
    if r == [] then Some(t)
    else if Has(t, r[0]) then Get(At(t, r[0]), r[1..])
    else None
  }

  /** Replace the subtree at a route; a route that leads nowhere changes nothing. */
  function Put(t: Plist, r: Route, u: Plist): Plist {
    if r == [] then u
    else if Has(t, r[0]) then With(t, r[0], Put(At(t, r[0]), r[1..], u))
    else t
  }

  /** Neither route leads through the other. */
  ghost predicate Apart(r: Route, q: Route) {
    !(r <= q) && !(q <= r)
  }

  lemma {:induction false} GetConcat(t: Plist, r: Route, q: Route)
    ensures Get(t, r + q) == (match Get(t, r) case None => None case Some(u) => Get(u, q))
  {
    if r == [] {
      assert r + q == q;
    } else if Has(t, r[0]) {
      assert (r + q)[1..] == r[1..] + q;
      GetConcat(At(t, r[0]), r[1..], q);
    }
  }

  lemma {:induction false} GetPutSame(t: Plist, r: Route, u: Plist)
    requires Get(t, r).Some?
    ensures Get(Put(t, r, u), r) == Some(u)
  {
    if r != [] {
      GetPutSame(At(t, r[0]), r[1..], u);
    }
  }

  lemma {:induction false} GetPutApart(t: Plist, r: Route, q: Route, u: Plist)
    requires Apart(r, q)
    ensures Get(Put(t, r, u), q) == Get(t, q)
  {
    if Has(t, r[0]) && q[0] == r[0] {
      assert r == [r[0]] + r[1..] && q == [q[0]] + q[1..];
      GetPutApart(At(t, r[0]), r[1..], q[1..], u);
    }
  }

  /** Writing below `r` is one write at `r` of the rewritten subtree. */
  lemma {:induction false} PutConcat(t: Plist, r: Route, q: Route, u: Plist)
    requires Get(t, r).Some?
    ensures Put(t, r + q, u) == Put(t, r, Put(Get(t, r).value, q, u))
  {
    if r == [] {
      assert r + q == q;
    } else {
      assert (r + q)[1..] == r[1..] + q;
      PutConcat(At(t, r[0]), r[1..], q, u);
    }
  }

  lemma {:induction false} PutPut(t: Plist, r: Route, u: Plist, w: Plist)
    ensures Put(Put(t, r, u), r, w) == Put(t, r, w)
  {
    if r != [] && Has(t, r[0]) {
      PutPut(At(t, r[0]), r[1..], u, w);
      var t' := Put(t, r, u);
      assert With(t', r[0], Put(At(t', r[0]), r[1..], w)) == With(t, r[0], Put(At(t, r[0]), r[1..], w));
    }
  }

  lemma {:induction false} PutGet(t: Plist, r: Route)
    requires Get(t, r).Some?
    ensures Put(t, r, Get(t, r).value) == t
  {
    if r != [] {
      PutGet(At(t, r[0]), r[1..]);
    }
  }

  // ---- Entry paths -----------------------------------------------------------------------------

  const I64_MAX: int := 0x7FFF_FFFF_FFFF_FFFF

  /** `u8::is_ascii_whitespace`: vertical tab is not one of these. */
  predicate IsSpace(c: char) {
    c == ' ' || c == '\t' || c == '\n' || c == '\U{000C}' || c == '\r'
  }

  predicate IsDigit(c: char) { '0' <= c <= '9' }

  function DigitValue(c: char): int
    requires IsDigit(c)
  {
    c as int - '0' as int
  }

  function SkipSpaces(s: string): string {
    if s != [] && IsSpace(s[0]) then SkipSpaces(s[1..]) else s
  }

  /** The value of the leading digits of `s`, continuing a number read so far. */
  function Decimal(s: string, acc: int): int {
    if s != [] && IsDigit(s[0]) then Decimal(s[1..], 10 * acc + DigitValue(s[0])) else acc
  }

  /** The number an array index token denotes: optional blanks, a sign, digits, clamped to 64 bits. */
  function Atoi(s: string): int {
    var u := SkipSpaces(s);
    if u != [] && u[0] == '-' then -Min(Decimal(u[1..], 0), I64_MAX)
    else if u != [] && u[0] == '+' then Min(Decimal(u[1..], 0), I64_MAX)
    else Min(Decimal(u, 0), I64_MAX)
  }

  /** What lies between the colons of `s`, empty pieces included. */
  function Pieces(s: string): (ps: seq<string>)
    ensures ps != []
  {
    if s == [] then [""]
    else
      var ps := Pieces(s[1..]);
      if s[0] == ':' then [""] + ps else [[s[0]] + ps[0]] + ps[1..]
  }

  function NonEmpty(ps: seq<string>): seq<string> {
    if ps == [] then []
    else if ps[0] == "" then NonEmpty(ps[1..])
    else [ps[0]] + NonEmpty(ps[1..])
  }

  /** The tokens of an entry path: its non-empty components, or one empty token when it has none. */
  function Tokens(s: string): (toks: seq<string>)
    ensures toks != []
  {
    var ne := NonEmpty(Pieces(s));
    if ne == [] then [""] else ne
  }

  /** The slot a token names, which depends on the kind of container it is looked up in. */
  function Name(t: Plist, tok: string): Slot {
    if t.Array? then Index(Atoi(tok)) else Key(tok)
  }

  /** One lookup; an empty token stays where it is. */
  function Step(t: Plist, tok: string): Option<Plist> {
    if tok == "" then Some(t)
    else if Has(t, Name(t, tok)) then Some(At(t, Name(t, tok)))
    else None
  }

  function Walk(t: Plist, toks: seq<string>): Option<Plist> {
    if toks == [] then Some(t)
    else match Step(t, toks[0])
      case None => None
      case Some(u) => Walk(u, toks[1..])
  }

  /** How many tokens a walk looks up before it runs out of them or a lookup fails. */
  function Consumed(t: Plist, toks: seq<string>): (n: nat)
    ensures n <= |toks|
  {
    if toks == [] then 0
    else match Step(t, toks[0])
      case None => 1
      case Some(u) => 1 + Consumed(u, toks[1..])
  }

  /** The slots a walk goes through; `None` when the walk fails. */
  function RouteOf(t: Plist, toks: seq<string>): Option<Route> {
    if toks == [] then Some([])
    else if toks[0] == "" then RouteOf(t, toks[1..])
    else if Has(t, Name(t, toks[0])) then
      match RouteOf(At(t, Name(t, toks[0])), toks[1..])
      case None => None
      case Some(r) => Some([Name(t, toks[0])] + r)
    else None
  }

  lemma {:induction false} WalkIsGet(t: Plist, toks: seq<string>)
    ensures RouteOf(t, toks).Some? <==> Walk(t, toks).Some?
    ensures RouteOf(t, toks).Some? ==> Get(t, RouteOf(t, toks).value) == Walk(t, toks)
    decreases |toks|
  {
    if toks != [] {
      if toks[0] == "" {
        WalkIsGet(t, toks[1..]);
      } else if Has(t, Name(t, toks[0])) {
        WalkIsGet(At(t, Name(t, toks[0])), toks[1..]);
        if RouteOf(t, toks).Some? {
          assert RouteOf(t, toks).value[1..] == RouteOf(At(t, Name(t, toks[0])), toks[1..]).value;
        }
      }
    }
  }

  lemma {:induction false} WalkConcat(t: Plist, a: seq<string>, b: seq<string>)
    ensures Walk(t, a + b) == (match Walk(t, a) case None => None case Some(u) => Walk(u, b))
    decreases |a|
  {
    if a == [] {
      assert a + b == b;
    } else {
      assert (a + b)[1..] == a[1..] + b;
      match Step(t, a[0]) {
        case None =>
        case Some(u) => WalkConcat(u, a[1..], b);
      }
    }
  }

  lemma {:induction false} RouteConcat(t: Plist, a: seq<string>, b: seq<string>)
    requires Walk(t, a).Some?
    ensures RouteOf(t, a + b).Some? <==> RouteOf(Walk(t, a).value, b).Some?
    ensures RouteOf(t, a).Some?
    ensures RouteOf(t, a + b).Some? ==>
              RouteOf(t, a + b).value == RouteOf(t, a).value + RouteOf(Walk(t, a).value, b).value
    decreases |a|
  {
    if a == [] {
      assert a + b == b;
    } else {
      assert (a + b)[1..] == a[1..] + b;
      RouteConcat(Step(t, a[0]).value, a[1..], b);
    }
  }

  lemma WalkLast(t: Plist, toks: seq<string>)
    requires toks != []
    ensures Walk(t, toks) ==
            (match Walk(t, toks[..|toks| - 1]) case None => None case Some(p) => Step(p, toks[|toks| - 1]))
  {
    var front, last := toks[..|toks| - 1], toks[|toks| - 1];
    assert toks == front + [last];
    WalkConcat(t, front, [last]);
    match Walk(t, front) {
      case None =>
      case Some(p) =>
        match Step(p, last) {
          case None =>
          case Some(u) => assert Walk(u, [last][1..]) == Some(u);
        }
    }
  }

  // ---- Creating the missing dictionaries --------------------------------------------------------

  /** What a walk with creation leaves behind: every dictionary it needs except the last entry. */
  function Create(t: Plist, toks: seq<string>): Plist
    decreases |toks|
  {
    if |toks| <= 1 then t
    else if toks[0] == "" then Create(t, toks[1..])
    else
      var s := Name(t, toks[0]);
      if Has(t, s) then With(t, s, Create(At(t, s), toks[1..]))
      else if t.Dict? then Dict(t.entries[toks[0] := Create(Dict(map[]), toks[1..])])
      else t
  }

  /** From an empty dictionary a walk leads nowhere or stays in it. */
  lemma {:induction false} WalkFromEmpty(toks: seq<string>)
    ensures Walk(Dict(map[]), toks).None? || Walk(Dict(map[]), toks) == Some(Dict(map[]))
    decreases |toks|
  {
    if toks != [] && toks[0] == "" {
      WalkFromEmpty(toks[1..]);
    }
  }

  /** The walk looks token `n` up in an array. */
  predicate Indexes(t: Plist, toks: seq<string>, n: nat)
    requires n < |toks|
  {
    toks[n] != "" && Walk(t, toks[..n]).Some? && Walk(t, toks[..n]).value.Array?
  }

  /** Creation adds no array to the way of a walk, and takes none away. */
  lemma {:induction false} CreateIndexes(t: Plist, toks: seq<string>, n: nat)
    requires n < |toks|
    ensures Indexes(Create(t, toks), toks, n) <==> Indexes(t, toks, n)
    decreases |toks|
  {
    if n > 0 {
      var t1, rest := Create(t, toks), toks[1..];
      assert toks[..n][1..] == rest[..n - 1] && rest[n - 1] == toks[n];
      if toks[0] == "" {
        CreateIndexes(t, rest, n - 1);
      } else {
        var s := Name(t, toks[0]);
        if Has(t, s) {
          CreateIndexes(At(t, s), rest, n - 1);
        } else if t.Dict? {
          CreateIndexes(Dict(map[]), rest, n - 1);
          WalkFromEmpty(rest[..n - 1]);
        }
      }
    }
  }

  /** The walk meets a dictionary that lacks a key before its last token. */
  predicate Misses(t: Plist, toks: seq<string>)
    decreases |toks|
  {
    if |toks| <= 1 then false
    else if toks[0] == "" then Misses(t, toks[1..])
    else
      var s := Name(t, toks[0]);
      if Has(t, s) then Misses(At(t, s), toks[1..]) else t.Dict?
  }

  /** How many tokens lead to the dictionary that lacks a key. */
  function MissPoint(t: Plist, toks: seq<string>): (n: nat)
    requires Misses(t, toks)
    ensures n + 1 < |toks|
    ensures Walk(t, toks[..n]).Some?
    ensures var d := Walk(t, toks[..n]).value; d.Dict? && toks[n] != "" && toks[n] !in d.entries
    decreases |toks|
  {
    if toks[0] != "" && !Has(t, Name(t, toks[0])) then 0
    else
      var u := Step(t, toks[0]).value;
      var n := 1 + MissPoint(u, toks[1..]);
      assert toks[..n][1..] == toks[1..][..n - 1];
      n
  }

  /** Creation is one write: the first missing key receives a chain of new dictionaries. */
  lemma {:induction false} CreateIsPut(t: Plist, toks: seq<string>)
    requires Misses(t, toks)
    ensures var n := MissPoint(t, toks);
            var d := Walk(t, toks[..n]).value;
            RouteOf(t, toks[..n]).Some? &&
            Create(t, toks) == Put(t, RouteOf(t, toks[..n]).value,
                                   Dict(d.entries[toks[n] := Create(Dict(map[]), toks[n + 1..])]))
    decreases |toks|
  {
    var n := MissPoint(t, toks);
    if toks[0] != "" && !Has(t, Name(t, toks[0])) {
    } else {
      var u := Step(t, toks[0]).value;
      CreateIsPut(u, toks[1..]);
      assert toks[..n][1..] == toks[1..][..n - 1];
      assert toks[1..][n..] == toks[n + 1..];
      if toks[0] != "" {
        var r := RouteOf(t, toks[..n]).value;
        assert r[1..] == RouteOf(u, toks[1..][..n - 1]).value;
      }
    }
  }

  lemma {:induction false} CreateNothing(t: Plist, toks: seq<string>)
    requires !Misses(t, toks)
    ensures Create(t, toks) == t
    decreases |toks|
  {
    if |toks| > 1 {
      if toks[0] == "" {
        CreateNothing(t, toks[1..]);
      } else if Has(t, Name(t, toks[0])) {
        CreateNothing(At(t, Name(t, toks[0])), toks[1..]);
      }
    }
  }

  /** An empty dictionary grown along a path of non-empty tokens holds exactly the one next token. */
  lemma {:induction false} CreateChain(toks: seq<string>, i: nat)
    requires i < |toks|
    requires forall k | 0 <= k < |toks| :: toks[k] != ""
    ensures Walk(Create(Dict(map[]), toks), toks[..i]).Some?
    ensures var d := Walk(Create(Dict(map[]), toks), toks[..i]).value;
            d.Dict? && d.entries.Keys == if i + 1 < |toks| then {toks[i]} else {}
    decreases |toks|
  {
    if i > 0 {
      CreateChain(toks[1..], i - 1);
      assert toks[..i][1..] == toks[1..][..i - 1];
      assert Step(Create(Dict(map[]), toks), toks[0]) == Some(Create(Dict(map[]), toks[1..]));
    }
  }

  lemma {:induction false} PiecesNonEmptyTokens(ps: seq<string>)
    ensures forall k | 0 <= k < |NonEmpty(ps)| :: NonEmpty(ps)[k] != ""
  {
    if ps != [] {
      PiecesNonEmptyTokens(ps[1..]);
    }
  }

  /** Tokens are empty only in the one-token list of an empty path. */
  lemma TokensAreNames(s: string)
    ensures Tokens(s) == [""] || forall k | 0 <= k < |Tokens(s)| :: Tokens(s)[k] != ""
  {
    PiecesNonEmptyTokens(Pieces(s));
  }

  /** Paths that resolved before creation still resolve, along the same slots. */
  lemma {:induction false} CreateKeepsRoutes(t: Plist, toks: seq<string>, q: seq<string>)
    requires RouteOf(t, q).Some?
    ensures RouteOf(Create(t, toks), q) == RouteOf(t, q)
    decreases |toks| + |q|
  {
    if |toks| <= 1 || q == [] {
    } else if toks[0] == "" {
      CreateKeepsRoutes(t, toks[1..], q);
    } else if q[0] == "" {
      CreateKeepsRoutes(t, toks, q[1..]);
    } else {
      var s := Name(t, toks[0]);
      if Has(t, s) && Name(t, q[0]) == s {
        CreateKeepsRoutes(At(t, s), toks[1..], q[1..]);
      }
    }
  }
}
