/** Entry paths spelled out: the path that names the slots of a route leads along that route. */
module PlistRoutes {
  import opened Options
  import opened PlistTree
  import opened PlistText
  import opened PlistPath

  /** Slots that a path can name: keys without colons, and indices that fit 64 bits. */
  predicate Spellable(s: Slot) {
    match s
    case Key(k) => k != "" && ':' !in k
    case Index(i) => 0 <= i <= I64_MAX
  }

  function Spelling(s: Slot): string
    requires Spellable(s)
  {
    match s
    case Key(k) => k
    case Index(i) => Numeral(i)
  }

  function Spellings(r: Route): (names: seq<string>)
    requires forall i | 0 <= i < |r| :: Spellable(r[i])
    ensures |names| == |r| && forall i | 0 <= i < |r| :: names[i] == Spelling(r[i])
  {
    seq(|r|, i requires 0 <= i < |r| && Spellable(r[i]) => Spelling(r[i]))
  }

  lemma {:induction false} NumeralDigits(n: nat)
    ensures Numeral(n) != "" && forall c | c in Numeral(n) :: IsDigit(c)
  {
    if n >= 10 {
      NumeralDigits(n / 10);
    }
  }

  /** A spelling is a token of its own. */
  lemma SpellingIsName(s: Slot)
    requires Spellable(s)
    ensures Spelling(s) != "" && ':' !in Spelling(s)
  {
    if s.Index? {
      NumeralDigits(s.index);
    }
  }

  /** Looked up in a container that has it, a spelling names its slot. */
  lemma SpellingNames(t: Plist, s: Slot)
    requires Spellable(s) && Has(t, s)
    ensures Name(t, Spelling(s)) == s && Spelling(s) != ""
  {
    SpellingIsName(s);
    if s.Index? {
      AtoiNumeral(s.index);
    }
  }

  predicate Spells(name: string, s: Slot) { Spellable(s) && name == Spelling(s) }

  lemma {:induction false} RouteSpelled(t: Plist, r: Route, names: seq<string>)
    requires |r| == |names| && (forall i | 0 <= i < |r| :: Spells(names[i], r[i])) && Get(t, r).Some?
    ensures RouteOf(t, names) == Some(r)
    decreases |r|
  {
    if r != [] {
      SpellingNames(t, r[0]);
      RouteSpelled(At(t, r[0]), r[1..], names[1..]);
      assert r == [r[0]] + r[1..];
    }
  }

  /** The path made of a route's spellings leads along that route and to what stands at its end. */
  lemma PathLeads(t: Plist, r: Route)
    requires r != [] && (forall i | 0 <= i < |r| :: Spellable(r[i])) && Get(t, r).Some?
    ensures RouteOf(t, Tokens(Path(Spellings(r)))) == Some(r)
    ensures Walk(t, Tokens(Path(Spellings(r)))) == Get(t, r)
  {
    var names := Spellings(r);
    forall i | 0 <= i < |names| ensures names[i] != "" && ':' !in names[i] {
      SpellingIsName(r[i]);
    }
    PathTokens(names);
    RouteSpelled(t, r, names);
    WalkIsGet(t, names);
  }

  /** The empty path, or one of colons only, stays at the root. */
  lemma {:induction false} ColonsStay(t: Plist, s: string)
    requires forall i | 0 <= i < |s| :: s[i] == ':'
    ensures Tokens(s) == [""] && Walk(t, Tokens(s)) == Some(t)
  {
    NoPieces(s);
    assert [""][1..] == [];
  }

  lemma {:induction false} NoPieces(s: string)
    requires forall i | 0 <= i < |s| :: s[i] == ':'
    ensures NonEmpty(Pieces(s)) == []
  {
    if s == [] {
      assert [""][1..] == [];
    } else {
      NoPieces(s[1..]);
      assert Pieces(s)[1..] == Pieces(s[1..]);
    }
  }
}
