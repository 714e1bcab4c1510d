/** The laws of the editing commands, for every tree, every path and every value. */
module PlistLaws {
  import opened Options
  import opened PlistTree
  import opened PlistText
  import opened PlistEffects

  // ---- Rewriting along a path -------------------------------------------------------------------

  /** A path that does not pass strictly through a rewritten route keeps its own route. */
  lemma {:induction false} PutKeepsRoute(t: Plist, r: Route, u: Plist, q: seq<string>)
    requires RouteOf(t, q).Some? && Get(t, r).Some?
    requires r <= RouteOf(t, q).value ==> r == RouteOf(t, q).value
    ensures RouteOf(Put(t, r, u), q) == RouteOf(t, q)
    decreases |q|
  {
    if q == [] {
    } else if q[0] == "" {
      PutKeepsRoute(t, r, u, q[1..]);
    } else {
      var s := Name(t, q[0]);
      var rq := RouteOf(t, q).value;
      if r[0] == s {
        assert rq[1..] == RouteOf(At(t, s), q[1..]).value;
        assert r == [s] + r[1..] && rq == [s] + rq[1..];
        PutKeepsRoute(At(t, s), r[1..], u, q[1..]);
      }
    }
  }

  /** After a rewrite the same path leads to the new subtree. */
  lemma RewriteReached(t: Plist, toks: seq<string>, u: Plist)
    requires Walk(t, toks).Some?
    ensures RouteOf(t, toks).Some?
    ensures RouteOf(Rewrite(t, toks, u), toks) == RouteOf(t, toks)
    ensures Walk(Rewrite(t, toks, u), toks) == Some(u)
    ensures forall w :: Rewrite(Rewrite(t, toks, u), toks, w) == Rewrite(t, toks, w)
    ensures Rewrite(t, toks, Walk(t, toks).value) == t
  {
    WalkIsGet(t, toks);
    var r := RouteOf(t, toks).value;
    PutKeepsRoute(t, r, u, toks);
    WalkIsGet(Put(t, r, u), toks);
    GetPutSame(t, r, u);
    PutGet(t, r);
    forall w ensures Rewrite(Rewrite(t, toks, u), toks, w) == Rewrite(t, toks, w) {
      PutPut(t, r, u, w);
    }
  }

  /** Below a rewritten place the walk goes on in the new subtree. */
  lemma RewriteThrough(t: Plist, a: seq<string>, u: Plist, b: seq<string>)
    requires Walk(t, a).Some?
    ensures Walk(Rewrite(t, a, u), a + b) == Walk(u, b)
  {
    RewriteReached(t, a, u);
    WalkConcat(Rewrite(t, a, u), a, b);
  }

  /** Paths that lead apart from a rewritten route find what they found before. */
  lemma WalkApart(t: Plist, r: Route, u: Plist, q: seq<string>)
    requires Walk(t, q).Some? && RouteOf(t, q).Some? && Get(t, r).Some?
    requires Apart(r, RouteOf(t, q).value)
    ensures Walk(Put(t, r, u), q) == Walk(t, q)
  {
    WalkIsGet(t, q);
    PutKeepsRoute(t, r, u, q);
    WalkIsGet(Put(t, r, u), q);
    GetPutApart(t, r, RouteOf(t, q).value, u);
  }

  // ---- Creation ---------------------------------------------------------------------------------

  lemma {:induction false} MissesCutsWalk(t: Plist, toks: seq<string>, i: nat)
    requires Misses(t, toks) && MissPoint(t, toks) < i <= |toks|
    ensures Walk(t, toks[..i]).None?
  {
    var n := MissPoint(t, toks);
    assert toks[..i] == toks[..n] + toks[n..i];
    WalkConcat(t, toks[..n], toks[n..i]);
    assert toks[n..i][0] == toks[n];
  }

  lemma WalkThroughKey(d: Plist, k: string, rest: seq<string>)
    requires d.Dict? && k != "" && k in d.entries
    ensures Walk(d, [k] + rest) == Walk(d.entries[k], rest)
  {
    assert ([k] + rest)[1..] == rest;
  }

  /** Past the missing key a walk goes on in the chain of new dictionaries. */
  lemma WalkCreated(t: Plist, toks: seq<string>, i: nat)
    requires Misses(t, toks) && MissPoint(t, toks) < i <= |toks|
    ensures var n := MissPoint(t, toks);
            Walk(Create(t, toks), toks[..i]) == Walk(Create(Dict(map[]), toks[n + 1..]), toks[n + 1..][..i - n - 1])
  {
    var n := MissPoint(t, toks);
    var a, k, rest := toks[..n], toks[n], toks[n + 1..][..i - n - 1];
    assert toks[..i] == a + ([k] + rest);
    var chain := Create(Dict(map[]), toks[n + 1..]);
    var d' := Dict(Walk(t, a).value.entries[k := chain]);
    CreateIsPut(t, toks);
    RewriteThrough(t, a, d', [k] + rest);
    WalkThroughKey(d', k, rest);
  }

  /** The dictionaries that creation added: each holds the one next token, the last one nothing. */
  lemma CreatedDicts(t: Plist, toks: seq<string>, i: nat)
    requires Misses(t, toks) && MissPoint(t, toks) < i < |toks|
    requires forall k | 0 <= k < |toks| :: toks[k] != ""
    ensures Walk(Create(t, toks), toks[..i]).Some?
    ensures var d := Walk(Create(t, toks), toks[..i]).value;
            d.Dict? && d.entries.Keys == if i + 1 < |toks| then {toks[i]} else {}
  {
    var n := MissPoint(t, toks);
    WalkCreated(t, toks, i);
    CreateChain(toks[n + 1..], i - n - 1);
  }

  /** Once one dictionary has been created the parent is there and empty, and the entry is not. */
  lemma CreatedParent(t: Plist, entry: string)
    requires Misses(t, Tokens(entry))
    ensures var toks := Tokens(entry);
            && Walk(Create(t, toks), Front(toks)) == Some(Dict(map[]))
            && Walk(Create(t, toks), toks).None?
            && Create(t, toks) != t
  {
    var toks := Tokens(entry);
    TokensAreNames(entry);
    var n := MissPoint(t, toks);
    CreatedDicts(t, toks, |toks| - 1);
    var d := Walk(Create(t, toks), Front(toks)).value;
    assert d.entries == map[] by {
      assert forall k :: k !in d.entries.Keys;
    }
    WalkLast(Create(t, toks), toks);
    MissesCutsWalk(t, toks, |toks| - 1);
  }

  /** Creating the first missing dictionary alone and then the rest is the same as creating all. */
  lemma {:induction false} CreateOne(t: Plist, toks: seq<string>, n: nat)
    requires n + 1 < |toks| && toks[n] != "" && RouteOf(t, toks[..n]).Some?
    requires Walk(t, toks[..n]).Some? && Walk(t, toks[..n]).value.Dict?
    requires toks[n] !in Walk(t, toks[..n]).value.entries
    ensures var d := Walk(t, toks[..n]).value;
            Create(Put(t, RouteOf(t, toks[..n]).value, Dict(d.entries[toks[n] := Dict(map[])])), toks) ==
                Create(t, toks)
    decreases n
  {
    var d := Walk(t, toks[..n]).value;
    var d' := Dict(d.entries[toks[n] := Dict(map[])]);
    if n == 0 {
      var rest := Create(Dict(map[]), toks[1..]);
      assert d'.entries[toks[0] := rest] == d.entries[toks[0] := rest];
    } else {
      assert toks[..n][1..] == toks[1..][..n - 1];
      assert toks[1..][n - 1] == toks[n];
      var r := RouteOf(t, toks[..n]).value;
      if toks[0] == "" {
        CreateOne(t, toks[1..], n - 1);
      } else {
        var s := Name(t, toks[0]);
        CreateOne(At(t, s), toks[1..], n - 1);
        assert r[1..] == RouteOf(At(t, s), toks[1..][..n - 1]).value;
        var u := Put(At(t, s), r[1..], d');
        assert With(With(t, s, u), s, Create(u, toks[1..])) == With(t, s, Create(u, toks[1..]));
      }
    }
  }

  /** A walk that got as far as `n` tokens and fails there outside a dictionary, or is at its end, misses nothing. */
  lemma NoMiss(t: Plist, toks: seq<string>, n: nat)
    requires n <= |toks| && Walk(t, toks[..n]).Some?
    requires n + 1 >= |toks| || (Walk(t, toks[..n + 1]).None? && !Walk(t, toks[..n]).value.Dict?)
    ensures !Misses(t, toks)
  {
    if Misses(t, toks) {
      var m := MissPoint(t, toks);
      if m < n {
        MissesCutsWalk(t, toks, n);
      } else if m > n {
        assert toks[..m] == toks[..n + 1] + toks[n + 1..m];
        WalkConcat(t, toks[..n + 1], toks[n + 1..m]);
      }
    }
  }

  // ---- One slot ---------------------------------------------------------------------------------

  /** Two containers of one kind that differ at most in slot `s`. */
  ghost predicate SameBut(p: Plist, u: Plist, s: Slot) {
    && (p.Dict? <==> u.Dict?) && (p.Array? <==> u.Array?)
    && forall x | x != s :: Has(p, x) == Has(u, x) && (Has(p, x) ==> At(p, x) == At(u, x))
  }

  /** Leading apart from a slot: not above it, and not through it. */
  lemma ApartSlot(r: Route, s: Slot, q: Route)
    ensures Apart(r + [s], q) <==> !(q <= r) && !(r + [s] <= q)
    ensures Apart(r + [s], q) && r <= q ==> |q| > |r| && q[|r|] != s
  {
    if r <= q && |q| > |r| && q[|r|] == s {
      assert q[..|r| + 1] == r + [s];
    }
    if q <= r + [s] {
      assert q == r + [s] || q == r[..|q|];
    }
  }

  /** A change in one slot shows only at routes that lead to it, above it or below it. */
  lemma SlotFrame(t: Plist, r: Route, u: Plist, s: Slot, q: Route)
    requires Get(t, r).Some? && SameBut(Get(t, r).value, u, s) && Apart(r + [s], q)
    ensures Get(Put(t, r, u), q) == Get(t, q)
  {
    ApartSlot(r, s, q);
    if r <= q {
      var rest := q[|r|..];
      assert q == r + rest && rest[0] != s;
      GetConcat(t, r, rest);
      GetConcat(Put(t, r, u), r, rest);
      GetPutSame(t, r, u);
    } else {
      GetPutApart(t, r, q, u);
    }
  }

  /**
   How many tokens lead to the container that an edit of `toks` starts from: the one that lacks a
   key, or the parent.
   */
  function AnchorLength(t: Plist, toks: seq<string>): (n: nat)
    requires toks != []
    ensures n < |toks|
  {
    if Misses(t, toks) then MissPoint(t, toks) else |toks| - 1
  }

  /** A write through a bound key rebinds that key. */
  lemma PutThroughKey(t: Plist, r: Route, k: string, q: Route, u: Plist)
    requires Get(t, r).Some? && Get(t, r).value.Dict? && k in Get(t, r).value.entries
    ensures var d := Get(t, r).value;
            Put(t, r + ([Key(k)] + q), u) == Put(t, r, Dict(d.entries[k := Put(d.entries[k], q, u)]))
  {
    PutConcat(t, r, [Key(k)] + q, u);
    assert ([Key(k)] + q)[1..] == q;
  }

  /** The route of a path that leads through a bound key. */
  lemma RouteThroughKey(t: Plist, a: seq<string>, k: string, rest: seq<string>)
    requires Walk(t, a).Some? && Walk(t, a).value.Dict? && k != "" && k in Walk(t, a).value.entries
    requires RouteOf(t, a + ([k] + rest)).Some?
    ensures RouteOf(t, a).Some? && RouteOf(Walk(t, a).value.entries[k], rest).Some?
    ensures RouteOf(t, a + ([k] + rest)).value ==
            RouteOf(t, a).value + ([Key(k)] + RouteOf(Walk(t, a).value.entries[k], rest).value)
  {
    RouteConcat(t, a, [k] + rest);
    assert ([k] + rest)[1..] == rest;
  }

  /** Rewriting below the first created dictionary: the key that was missing is bound, and nothing else changes. */
  lemma CreatedRewrite(t: Plist, toks: seq<string>, at: seq<string>, u: Plist) returns (w: Plist)
    requires Misses(t, toks) && toks[..MissPoint(t, toks) + 1] <= at
    ensures var n := MissPoint(t, toks);
            && RouteOf(t, toks[..n]).Some?
            && Rewrite(Create(t, toks), at, u) ==
               Put(t, RouteOf(t, toks[..n]).value, Dict(Walk(t, toks[..n]).value.entries[toks[n] := w]))
  {
    var n := MissPoint(t, toks);
    var a, k, rest := toks[..n], toks[n], at[n + 1..];
    assert at == a + ([k] + rest) by {
      assert at[..n + 1] == toks[..n + 1] == a + [k];
    }
    CreateIsPut(t, toks);
    var t1, r, d := Create(t, toks), RouteOf(t, a).value, Walk(t, a).value;
    w := Create(Dict(map[]), toks[n + 1..]);
    var d' := Dict(d.entries[k := w]);
    RewriteReached(t, a, d');
    WalkIsGet(t1, a);
    if RouteOf(t1, at).Some? {
      RouteThroughKey(t1, a, k, rest);
      var q := RouteOf(w, rest).value;
      PutThroughKey(t1, r, k, q, u);
      w := Put(w, q, u);
      PutPut(t, r, d', Dict(d'.entries[k := w]));
      assert d'.entries[k := w] == d.entries[k := w];
    }
  }

  // ---- Add --------------------------------------------------------------------------------------

  /** The slot that Add and Import fill under the parent they find. */
  function FilledSlot(parent: Plist, leaf: string): Slot {
    if parent.Array? then Index(Clamp(Atoi(leaf), |parent.items|)) else Key(leaf)
  }

  /**
   Add is all or nothing although it creates dictionaries on the way: a failed Add leaves the very
   same tree, and a successful one puts the value where the entry says, every dictionary it
   created holding exactly the one next token.  A walk that had to create cannot fail any more.
   */
  lemma AddAllOrNothing(t: Plist, entry: string, v: Plist)
    ensures var e := AddEffect(t, entry, v);
            var toks := Tokens(entry);
            && (e.report != Done ==> e.tree == t)
            && (Misses(t, toks) ==> e.report == Done)
            && (e.report == Done ==>
                  var parent := Walk(Create(t, toks), Front(toks));
                  && parent.Some? && RouteOf(e.tree, Front(toks)).Some?
                  && Get(e.tree, RouteOf(e.tree, Front(toks)).value + [FilledSlot(parent.value, Last(toks))]) ==
                      Some(v))
            && (Misses(t, toks) ==>
                  forall i | MissPoint(t, toks) < i < |toks| ::
                    var d := Walk(e.tree, toks[..i]);
                    d.Some? && d.value.Dict? && d.value.entries.Keys == {toks[i]})
  {
    var e := AddEffect(t, entry, v);
    var toks := Tokens(entry);
    var t1 := Create(t, toks);
    if Misses(t, toks) {
      CreatedParent(t, entry);
      forall i | MissPoint(t, toks) < i < |toks|
        ensures var d := Walk(e.tree, toks[..i]);
                d.Some? && d.value.Dict? && d.value.entries.Keys == {toks[i]}
      {
        AddedChain(t, entry, v, i);
      }
    } else {
      CreateNothing(t, toks);
    }
    if e.report == Done {
      AddedValue(t, entry, v);
    }
  }

  lemma AddedValue(t: Plist, entry: string, v: Plist)
    requires AddEffect(t, entry, v).report == Done
    ensures var e := AddEffect(t, entry, v);
            var toks := Tokens(entry);
            var parent := Walk(Create(t, toks), Front(toks));
            && parent.Some? && RouteOf(e.tree, Front(toks)).Some?
            && Get(e.tree, RouteOf(e.tree, Front(toks)).value + [FilledSlot(parent.value, Last(toks))]) == Some(v)
  {
    var e := AddEffect(t, entry, v);
    var toks := Tokens(entry);
    var t1 := Create(t, toks);
    var p := Walk(t1, Front(toks)).value;
    WalkLast(t1, toks);
    var p' := Filled(p, Last(toks), v);
    RewriteReached(t1, Front(toks), p');
    var r := RouteOf(e.tree, Front(toks)).value;
    var s := FilledSlot(p, Last(toks));
    WalkIsGet(e.tree, Front(toks));
    GetConcat(e.tree, r, [s]);
    assert Has(p', s) && At(p', s) == v;
    assert Get(v, [s][1..]) == Some(v);
  }

  /** A rewrite further down leaves a dictionary with one key its key. */
  lemma OneKeyStays(t: Plist, a: seq<string>, b: seq<string>, u: Plist)
    requires Walk(t, a + b).Some? && Walk(t, a).Some? && b != [] && b[0] != ""
    requires Walk(t, a).value.Dict? && Walk(t, a).value.entries.Keys == {b[0]}
    ensures var d := Walk(Rewrite(t, a + b, u), a);
            d.Some? && d.value.Dict? && d.value.entries.Keys == {b[0]}
  {
    var d := Walk(t, a).value;
    WalkIsGet(t, a + b);
    RouteConcat(t, a, b);
    var ra, rb := RouteOf(t, a).value, RouteOf(d, b).value;
    WalkIsGet(t, a);
    PutConcat(t, ra, rb, u);
    RewriteReached(t, a, Put(d, rb, u));
    assert rb[0] == Key(b[0]);
  }

  /** The created dictionaries after the value has gone into the last of them. */
  lemma AddedChain(t: Plist, entry: string, v: Plist, i: nat)
    requires Misses(t, Tokens(entry)) && MissPoint(t, Tokens(entry)) < i < |Tokens(entry)|
    ensures var toks := Tokens(entry);
            var d := Walk(AddEffect(t, entry, v).tree, toks[..i]);
            d.Some? && d.value.Dict? && d.value.entries.Keys == {toks[i]}
  {
    var toks := Tokens(entry);
    var t1 := Create(t, toks);
    TokensAreNames(entry);
    CreatedParent(t, entry);
    CreatedDicts(t, toks, i);
    var p' := Dict(map[Last(toks) := v]);
    assert AddEffect(t, entry, v).tree == Rewrite(t1, Front(toks), p');
    if i < |toks| - 1 {
      var a, b := toks[..i], toks[i..|toks| - 1];
      assert Front(toks) == a + b && b[0] == toks[i];
      OneKeyStays(t1, a, b, p');
    } else {
      RewriteReached(t1, Front(toks), p');
    }
  }

  /**
   Add followed by Delete of the same entry gives back the original tree exactly when no
   dictionary had to be created and, under an array, the index lies between 0 and the count.
   */
  lemma AddThenDelete(t: Plist, entry: string, v: Plist)
    requires AddEffect(t, entry, v).report == Done
    ensures var toks := Tokens(entry);
            var parent := Walk(Create(t, toks), Front(toks)).value;
            DeleteEffect(AddEffect(t, entry, v).tree, entry).tree == t <==>
            !Misses(t, toks) && (parent.Array? ==> 0 <= Atoi(Last(toks)) <= |parent.items|)
  {
    var toks := Tokens(entry);
    var t1 := Create(t, toks);
    FillThenDelete(t1, entry, v);
    if Misses(t, toks) {
      CreatedParent(t, entry);
    } else {
      CreateNothing(t, toks);
    }
  }

  /** The same once the path is there: what is added is deleted again unless the index was clamped. */
  lemma FillThenDelete(t: Plist, entry: string, v: Plist)
    requires AddUnder(t, Tokens(entry), v).report == Done
    ensures var toks := Tokens(entry);
            var p := Walk(t, Front(toks)).value;
            var t'' := DeleteEffect(AddUnder(t, toks, v).tree, entry).tree;
            if p.Array? ==> 0 <= Atoi(Last(toks)) <= |p.items| then t'' == t else t'' != t
  {
    var toks := Tokens(entry);
    var p := Walk(t, Front(toks)).value;
    var p' := Filled(p, Last(toks), v);
    var t' := Rewrite(t, Front(toks), p');
    RewriteReached(t, Front(toks), p');
    WalkLast(t, toks);
    WalkLast(t', toks);
    TokensAreNames(entry);
    FilledBack(p, Last(toks), v);
    if p.Array? && !(0 <= Atoi(Last(toks)) <= |p.items|) {
      assert Walk(t', toks).None?;
    } else {
      assert Walk(t', toks).Some?;
      assert DeleteEffect(t', entry).tree == Rewrite(t', Front(toks), p);
    }
  }

  /** Taking the added value out of the container again. */
  lemma FilledBack(p: Plist, leaf: string, v: Plist)
    requires !p.Leaf?
    ensures p.Dict? && leaf !in p.entries ==> Filled(p, leaf, v).entries - {leaf} == p.entries
    ensures p.Array? && 0 <= Atoi(leaf) <= |p.items| ==> RemoveAt(Filled(p, leaf, v).items, Atoi(leaf)) == p.items
    ensures p.Array? ==> Filled(p, leaf, v) != p
  {
    if p.Array? {
      assert |Filled(p, leaf, v).items| == |p.items| + 1;
    }
  }

  // ---- Where the other paths lead afterwards ------------------------------------------------------

  lemma RouteOfOne(p: Plist, tok: string)
    requires tok != "" && Has(p, Name(p, tok))
    ensures RouteOf(p, [tok]) == Some([Name(p, tok)])
  {
    assert [tok][1..] == [];
    assert RouteOf(At(p, Name(p, tok)), []) == Some([]);
    assert [Name(p, tok)] + [] == [Name(p, tok)];
  }

  lemma PutOne(p: Plist, s: Slot, u: Plist)
    requires Has(p, s)
    ensures Put(p, [s], u) == With(p, s, u)
  {
    assert Put(At(p, s), [s][1..], u) == u;
  }

  /** Overwriting a scalar rewrites exactly the slot its path resolves to. */
  lemma WriteIsPut(t: Plist, toks: seq<string>, v: Scalar)
    requires toks != [] && Walk(t, toks).Some? && Walk(t, toks).value.Leaf?
    requires WriteEffect(t, toks, v).report == Done
    ensures RouteOf(t, toks).Some?
    ensures WriteEffect(t, toks, v).tree == Put(t, RouteOf(t, toks).value, Leaf(v))
  {
    WalkLast(t, toks);
    var p, tok := Walk(t, Front(toks)).value, Last(toks);
    assert toks == Front(toks) + [tok];
    RouteConcat(t, Front(toks), [tok]);
    WalkIsGet(t, Front(toks));
    RouteOfOne(p, tok);
    PutConcat(t, RouteOf(t, Front(toks)).value, [Name(p, tok)], Leaf(v));
    PutOne(p, Name(p, tok), Leaf(v));
  }

  /** A successful Set is the overwriting of one scalar by one of the same type. */
  lemma SetIsPut(c: Libc, t: Plist, entry: string, text: string)
    requires SetEffect(c, t, entry, text).report == Done
    ensures var toks := Tokens(entry);
            && Walk(t, toks).Some? && RouteOf(t, toks).Some?
            && ParseValue(c, InferType(Walk(t, toks).value), text).Some?
            && SetEffect(c, t, entry, text).tree ==
               Put(t, RouteOf(t, toks).value, Leaf(ParseValue(c, InferType(Walk(t, toks).value), text).value))
  {
    var toks := Tokens(entry);
    WriteIsPut(t, toks, ParseValue(c, InferType(Walk(t, toks).value), text).value);
  }

  /** After Set the entry holds the new value and every path leading apart from it is untouched. */
  lemma SetFrame(c: Libc, t: Plist, entry: string, text: string, q: seq<string>)
    requires SetEffect(c, t, entry, text).report == Done
    requires Walk(t, q).Some?
    ensures var t' := SetEffect(c, t, entry, text).tree;
            var r, rq := RouteOf(t, Tokens(entry)), RouteOf(t, q);
            && r.Some? && rq.Some? && TypeAt(t, Tokens(entry)).Some?
            && (exists v :: ParseValue(c, TypeAt(t, Tokens(entry)).value, text) == Some(v)
                            && Walk(t', Tokens(entry)) == Some(Leaf(v)))
            && (Apart(r.value, rq.value) ==> Walk(t', q) == Walk(t, q))
  {
    SetIsPut(c, t, entry, text);
    var toks := Tokens(entry);
    var v := ParseValue(c, InferType(Walk(t, toks).value), text).value;
    WalkIsGet(t, toks);
    WalkIsGet(t, q);
    RewriteReached(t, toks, Leaf(v));
    if Apart(RouteOf(t, toks).value, RouteOf(t, q).value) {
      WalkApart(t, RouteOf(t, toks).value, Leaf(v), q);
    }
  }

  /** Where a route through the array at `r` leads once a value has been inserted at `i`. */
  function Shifted(r: Route, i: int, q: Route): Route {
    if r < q && q[|r|].Index? && q[|r|].index >= i then q[|r| := Index(q[|r|].index + 1)] else q
  }

  /** Inserting into an array moves the later elements up by exactly one and nothing else. */
  lemma {:induction false} InsertShifts(t: Plist, r: Route, i: nat, v: Plist, q: Route)
    requires Get(t, r).Some? && Get(t, r).value.Array? && i <= |Get(t, r).value.items|
    requires !(q <= r)
    ensures Get(Put(t, r, Array(InsertAt(Get(t, r).value.items, i, v))), Shifted(r, i, q)) == Get(t, q)
  {
    var p := Get(t, r).value;
    var p' := Array(InsertAt(p.items, i, v));
    var q' := Shifted(r, i, q);
    if r == [] {
      if q[0].Index? && q[0].index >= i {
        assert q'[1..] == q[1..];
      }
      if Has(t, q[0]) {
        assert Has(p', q'[0]) && At(p', q'[0]) == At(t, q[0]);
      }
    } else if q[0] == r[0] {
      assert r == [r[0]] + r[1..] && q == [q[0]] + q[1..];
      InsertShifts(At(t, r[0]), r[1..], i, v, q[1..]);
      assert r < q <==> r[1..] < q[1..];
      assert q'[1..] == Shifted(r[1..], i, q[1..]);
    }
  }

  /** Every route outside the ancestors of the insertion point leads, shifted, to what it led to before. */
  lemma AddShifts(t: Plist, entry: string, v: Plist, q: Route)
    requires AddEffect(t, entry, v).report == Done
    requires var parent := Walk(t, Front(Tokens(entry))); parent.Some? && parent.value.Array?
    ensures var toks := Tokens(entry);
            var parent := Walk(t, Front(toks)).value;
            var r := RouteOf(t, Front(toks));
            && r.Some?
            && (!(q <= r.value) ==>
                  Get(AddEffect(t, entry, v).tree, Shifted(r.value, Clamp(Atoi(Last(toks)), |parent.items|), q)) ==
                      Get(t, q))
  {
    var toks := Tokens(entry);
    var parent := Walk(t, Front(toks)).value;
    WalkIsGet(t, Front(toks));
    NoMiss(t, toks, |toks| - 1);
    CreateNothing(t, toks);
    if !(q <= RouteOf(t, Front(toks)).value) {
      InsertShifts(t, RouteOf(t, Front(toks)).value, Clamp(Atoi(Last(toks)), |parent.items|), v, q);
    }
  }

  /** A successful Add under a dictionary, created or not, is one write that binds one absent key. */
  lemma AddIsPut(t: Plist, entry: string, v: Plist) returns (w: Plist)
    requires AddEffect(t, entry, v).report == Done && Walk(Create(t, Tokens(entry)), Front(Tokens(entry))).value.Dict?
    ensures var toks := Tokens(entry);
            var n := AnchorLength(t, toks);
            var d := Walk(t, toks[..n]);
            && RouteOf(t, toks[..n]).Some? && d.Some? && d.value.Dict? && toks[n] !in d.value.entries
            && AddEffect(t, entry, v).tree ==
               Put(t, RouteOf(t, toks[..n]).value, Dict(d.value.entries[toks[n] := w]))
  {
    var toks := Tokens(entry);
    var n := AnchorLength(t, toks);
    if Misses(t, toks) {
      CreatedParent(t, entry);
      assert toks[..n + 1] <= Front(toks);
      w := CreatedRewrite(t, toks, Front(toks), Filled(Dict(map[]), Last(toks), v));
    } else {
      CreateNothing(t, toks);
      WalkIsGet(t, Front(toks));
      WalkLast(t, toks);
      w := v;
    }
  }

  /**
   Add under a dictionary, with or without creation: the key that was absent leads to something new,
   and every route that does not go through it or end above it leads to what it led to before.
   */
  lemma AddKeyFrame(t: Plist, entry: string, v: Plist, q: Route)
    requires AddEffect(t, entry, v).report == Done && Walk(Create(t, Tokens(entry)), Front(Tokens(entry))).value.Dict?
    ensures var toks := Tokens(entry);
            var n := AnchorLength(t, toks);
            var r, k := RouteOf(t, toks[..n]), Key(toks[n]);
            && r.Some?
            && (r.value + [k] <= q ==> Get(t, q).None?)
            && Get(AddEffect(t, entry, v).tree, r.value + [k]).Some?
            && (!(r.value + [k] <= q) && !(q <= r.value) ==> Get(AddEffect(t, entry, v).tree, q) == Get(t, q))
  {
    var toks := Tokens(entry);
    var w := AddIsPut(t, entry, v);
    var n := AnchorLength(t, toks);
    var r, k := RouteOf(t, toks[..n]).value, Key(toks[n]);
    WalkIsGet(t, toks[..n]);
    var d := Walk(t, toks[..n]).value;
    var d' := Dict(d.entries[toks[n] := w]);
    GetPutSame(t, r, d');
    GetConcat(Put(t, r, d'), r, [k]);
    if r + [k] <= q {
      var rest := q[|r|..];
      assert q == r + rest && rest[0] == (r + [k])[|r|];
      GetConcat(t, r, rest);
    } else if !(q <= r) {
      ApartSlot(r, k, q);
      SlotFrame(t, r, d', k, q);
    }
  }

  lemma RemovedBack(xs: seq<Plist>, i: nat)
    requires i < |xs|
    ensures |RemoveAt(xs, i)| == |xs| - 1 && InsertAt(RemoveAt(xs, i), i, xs[i]) == xs
  {
  }

  lemma RemoveShifts(t: Plist, r: Route, i: nat, q: Route)
    requires Get(t, r).Some? && Get(t, r).value.Array? && i < |Get(t, r).value.items|
    requires !(q <= r)
    ensures Get(Put(t, r, Array(RemoveAt(Get(t, r).value.items, i))), q) == Get(t, Shifted(r, i, q))
  {
    var xs := Get(t, r).value.items;
    var p' := Array(RemoveAt(xs, i));
    var t' := Put(t, r, p');
    RemovedBack(xs, i);
    GetPutSame(t, r, p');
    InsertShifts(t', r, i, xs[i], q);
    PutPut(t, r, p', Array(xs));
    PutGet(t, r);
  }

  /** Deleting from an array is the inverse: what was one further on is found one earlier. */
  lemma DeleteShifts(t: Plist, entry: string, q: Route)
    requires DeleteEffect(t, entry).report == Done
    requires var parent := Walk(t, Front(Tokens(entry))); parent.Some? && parent.value.Array?
    ensures var toks := Tokens(entry);
            var r := RouteOf(t, Front(toks));
            && r.Some?
            && (!(q <= r.value) ==>
                  Get(DeleteEffect(t, entry).tree, q) == Get(t, Shifted(r.value, Atoi(Last(toks)), q)))
  {
    var toks := Tokens(entry);
    WalkIsGet(t, Front(toks));
    var r := RouteOf(t, Front(toks)).value;
    if !(q <= r) {
      RemoveShifts(t, r, Atoi(Last(toks)), q);
    }
  }

  lemma KeyRemoved(t: Plist, r: Route, k: string, q: Route)
    requires Get(t, r).Some? && Get(t, r).value.Dict?
    ensures var t' := Put(t, r, Dict(Get(t, r).value.entries - {k}));
            && (r + [Key(k)] <= q ==> Get(t', q).None?)
            && (!(r + [Key(k)] <= q) && !(q <= r) ==> Get(t', q) == Get(t, q))
  {
    var p' := Dict(Get(t, r).value.entries - {k});
    if r + [Key(k)] <= q {
      var rest := q[|r|..];
      assert q == r + rest && rest[0] == (r + [Key(k)])[|r|];
      GetPutSame(t, r, p');
      GetConcat(Put(t, r, p'), r, rest);
    } else if !(q <= r) {
      ApartSlot(r, Key(k), q);
      SlotFrame(t, r, p', Key(k), q);
    }
  }

  /** Deleting a key removes that slot; every route that does not go through it or end above it stays. */
  lemma DeleteKeyFrame(t: Plist, entry: string, q: Route)
    requires DeleteEffect(t, entry).report == Done
    requires var parent := Walk(t, Front(Tokens(entry))); parent.Some? && parent.value.Dict?
    ensures var toks := Tokens(entry);
            var r := RouteOf(t, Front(toks));
            && r.Some?
            && (r.value + [Key(Last(toks))] <= q ==> Get(DeleteEffect(t, entry).tree, q).None?)
            && (!(r.value + [Key(Last(toks))] <= q) && !(q <= r.value) ==>
                  Get(DeleteEffect(t, entry).tree, q) == Get(t, q))
  {
    var toks := Tokens(entry);
    WalkIsGet(t, Front(toks));
    var r, k := RouteOf(t, Front(toks)).value, Last(toks);
    KeyRemoved(t, r, k, q);
  }

  // ---- Runs of Set --------------------------------------------------------------------------------

  /** The type found at a path, or nothing when the path does not resolve. */
  function TypeAt(t: Plist, q: seq<string>): Option<PropertyType> {
    match Walk(t, q)
    case None => None
    case Some(u) => Some(InferType(u))
  }

  lemma {:induction false} PutKeepsTypes(t: Plist, r: Route, u: Plist, q: seq<string>)
    requires Get(t, r).Some? && Get(t, r).value.Leaf? && u.Leaf?
    requires InferType(Get(t, r).value) == InferType(u)
    ensures TypeAt(Put(t, r, u), q) == TypeAt(t, q)
    decreases |q|
  {
    var t' := Put(t, r, u);
    if q == [] {
    } else if q[0] == "" {
      PutKeepsTypes(t, r, u, q[1..]);
    } else if r != [] {
      var s := Name(t, q[0]);
      if s == r[0] {
        PutKeepsTypes(At(t, s), r[1..], u, q[1..]);
        assert At(t', s) == Put(At(t, s), r[1..], u);
      } else if Has(t, s) {
        assert At(t', s) == At(t, s);
      }
    }
  }

  datatype Assignment = Assignment(entry: string, text: string)

  function SetRun(c: Libc, t: Plist, run: seq<Assignment>): Plist
    decreases |run|
  {
    if run == [] then t else SetRun(c, SetEffect(c, t, run[0].entry, run[0].text).tree, run[1..])
  }

  /** A Set changes no type anywhere and makes no path resolve or stop resolving. */
  lemma SetKeepsTypes(c: Libc, t: Plist, entry: string, text: string, q: seq<string>)
    ensures TypeAt(SetEffect(c, t, entry, text).tree, q) == TypeAt(t, q)
  {
    if SetEffect(c, t, entry, text).report == Done {
      var toks := Tokens(entry);
      SetIsPut(c, t, entry, text);
      WalkIsGet(t, toks);
      PutKeepsTypes(t, RouteOf(t, toks).value, Leaf(ParseValue(c, InferType(Walk(t, toks).value), text).value), q);
    }
  }

  /** Over any run of Set commands no path appears, disappears or changes its type. */
  lemma {:induction false} SetRunKeepsTypes(c: Libc, t: Plist, run: seq<Assignment>, q: seq<string>)
    ensures TypeAt(SetRun(c, t, run), q) == TypeAt(t, q)
    decreases |run|
  {
    if run != [] {
      SetKeepsTypes(c, t, run[0].entry, run[0].text, q);
      SetRunKeepsTypes(c, SetEffect(c, t, run[0].entry, run[0].text).tree, run[1..], q);
    }
  }

  // ---- Copy ---------------------------------------------------------------------------------------

  /** What is added under a key or at the end of an array is found again by the same path. */
  lemma FillReached(t: Plist, toks: seq<string>, v: Plist)
    requires toks != [] && Walk(t, toks).None? && Walk(t, Front(toks)).Some?
    requires var p := Walk(t, Front(toks)).value; p.Dict? || (p.Array? && 0 <= Atoi(Last(toks)) <= |p.items|)
    ensures var p := Walk(t, Front(toks)).value;
            var p' := if p.Array? then Array(InsertAt(p.items, Atoi(Last(toks)), v))
                else Dict(AddKey(p.entries, Last(toks), v));
            Walk(Rewrite(t, Front(toks), p'), toks) == Some(v)
  {
    var p, tok := Walk(t, Front(toks)).value, Last(toks);
    var p' := if p.Array? then Array(InsertAt(p.items, Atoi(tok), v)) else Dict(AddKey(p.entries, tok, v));
    assert Step(p', tok) == Some(v) by {
      WalkLast(t, toks);
    }
    RewriteReached(t, Front(toks), p');
    WalkLast(Rewrite(t, Front(toks), p'), toks);
  }

  /** After Copy the destination holds the source as it stands once the destination path exists. */
  lemma CopyArrives(t: Plist, src: string, dst: string)
    requires CopyEffect(t, src, dst).report == Done
    ensures Walk(Create(t, Tokens(dst)), Tokens(src)).Some?
    ensures Walk(CopyEffect(t, src, dst).tree, Tokens(dst)) == Walk(Create(t, Tokens(dst)), Tokens(src))
  {
    var d := Tokens(dst);
    CreateKeepsSource(t, d, Tokens(src));
    FillReached(Create(t, d), d, Walk(Create(t, d), Tokens(src)).value);
  }

  /** Creating the destination changes the source exactly when the missing key lies at or below it. */
  lemma CopySourceUnchanged(t: Plist, toks: seq<string>, q: seq<string>)
    requires Walk(t, q).Some? && RouteOf(t, q).Some?
    ensures Misses(t, toks) ==> RouteOf(t, toks[..MissPoint(t, toks)]).Some?
    ensures Walk(Create(t, toks), q) == Walk(t, q) <==>
            !(Misses(t, toks) && RouteOf(t, q).value <= RouteOf(t, toks[..MissPoint(t, toks)]).value)
  {
    if !Misses(t, toks) {
      CreateNothing(t, toks);
    } else {
      var n := MissPoint(t, toks);
      var d := Walk(t, toks[..n]).value;
      var d' := Dict(d.entries[toks[n] := Create(Dict(map[]), toks[n + 1..])]);
      CreateIsPut(t, toks);
      WalkIsGet(t, toks[..n]);
      WalkIsGet(t, q);
      CreateKeepsSource(t, toks, q);
      WalkIsGet(Create(t, toks), q);
      var m, rq := RouteOf(t, toks[..n]).value, RouteOf(t, q).value;
      GrowthShows(t, m, d', rq, toks[n]);
    }
  }

  /** One more key in the dictionary at `m` shows at `q` exactly when `q` leads to it or above it. */
  lemma GrowthShows(t: Plist, m: Route, d': Plist, q: Route, k: string)
    requires Get(t, m).Some? && Get(t, m).value.Dict? && d'.Dict?
    requires k !in Get(t, m).value.entries && k in d'.entries
    requires d'.entries - {k} == Get(t, m).value.entries
    requires Get(t, q).Some?
    ensures Get(Put(t, m, d'), q) == Get(t, q) <==> !(q <= m)
  {
    var d := Get(t, m).value;
    if q <= m {
      assert m == q + m[|q|..];
      GetConcat(t, q, m[|q|..]);
      GetConcat(Put(t, m, d'), q, m[|q|..]);
      GetPutSame(t, m, d');
    } else if m <= q {
      assert q == m + q[|m|..];
      GetConcat(t, m, q[|m|..]);
      GetConcat(Put(t, m, d'), m, q[|m|..]);
      GetPutSame(t, m, d');
      assert q[|m|] != Key(k);
    } else {
      GetPutApart(t, m, q, d');
    }
  }

  /** A failed Copy still leaves dictionaries behind exactly when the source is missing and the path was not there. */
  lemma CopyResidue(t: Plist, src: string, dst: string)
    ensures var e := CopyEffect(t, src, dst);
            e.report != Done && e.tree != t <==> Walk(t, Tokens(src)).None? && Misses(t, Tokens(dst))
  {
    var d := Tokens(dst);
    if Misses(t, d) {
      CreatedParent(t, dst);
    } else {
      CreateNothing(t, d);
    }
  }

  lemma PiecesOfName(c: char, s: string)
    requires c != ':'
    ensures Pieces([c] + s) == [[c] + Pieces(s)[0]] + Pieces(s)[1..]
  {
    assert ([c] + s)[1..] == s;
  }

  lemma PiecesOfColon(s: string)
    ensures Pieces(":" + s) == [""] + Pieces(s)
  {
    assert (":" + s)[1..] == s;
  }

  /** The tokens of a path of two names. */
  lemma TwoNames()
    ensures Tokens(":a:b") == ["a", "b"] && Tokens("x") == ["x"]
  {
    PiecesOfName('b', "");
    assert ['b'] + "" == "b" && [""][1..] == [];
    assert Pieces("b") == ["b"];
    PiecesOfColon("b");
    assert Pieces(":b") == ["", "b"];
    PiecesOfName('a', ":b");
    assert ['a'] + ":b" == "a:b" && ['a'] + "" == "a" && ["", "b"][1..] == ["b"];
    assert Pieces("a:b") == ["a", "b"];
    PiecesOfColon("a:b");
    assert Pieces(":a:b") == ["", "a", "b"];
    PiecesOfName('x', "");
    assert ['x'] + "" == "x" && Pieces("x") == ["x"];
    assert ["", "a", "b"][1..] == ["a", "b"] && ["a", "b"][1..] == ["b"] && ["b"][1..] == [] && ["x"][1..] == [];
    assert NonEmpty(["b"]) == ["b"] && NonEmpty(["a", "b"]) == ["a", "b"] && NonEmpty(["", "a", "b"]) == ["a", "b"];
  }

  lemma CreatedForTwo()
    ensures Misses(Dict(map[]), ["a", "b"]) && Create(Dict(map[]), ["a", "b"]) == Dict(map["a" := Dict(map[])])
  {
    assert ["a", "b"][1..] == ["b"];
  }

  /** `Copy x :a:b` in an empty list: it fails, and the dictionary `a` is there. */
  lemma CopyResidueExample()
    ensures CopyEffect(Dict(map[]), "x", ":a:b") == Effect(Dict(map["a" := Dict(map[])]), NoEntry)
  {
    TwoNames();
    CreatedForTwo();
  }

  /** `Merge file :a:b` in an empty list: it fails, whatever the file holds, and the dictionary `a` is there. */
  lemma MergeResidueExample(file: Plist, order: seq<string>)
    requires OrdersKeys(order, Some(file))
    ensures MergeEffect(Dict(map[]), Some(file), Some(":a:b"), order) == Effect(Dict(map["a" := Dict(map[])]), NoEntry)
  {
    TwoNames();
    CreatedForTwo();
    MergeResidue(Dict(map[]), file, ":a:b", order);
  }

  // ---- Merge and Import ---------------------------------------------------------------------------

  /** A Merge that has to create a dictionary always fails, and leaves what it created behind. */
  lemma MergeResidue(t: Plist, file: Plist, entry: string, order: seq<string>)
    requires OrdersKeys(order, Some(file)) && entry != ""
    ensures var e := MergeEffect(t, Some(file), Some(entry), order);
            && (Misses(t, Tokens(entry)) ==> e.report == NoEntry && e.tree == Create(t, Tokens(entry)) && e.tree != t)
            && (!Misses(t, Tokens(entry)) && e.report != Done ==> e.tree == t)
  {
    var toks := Tokens(entry);
    if Misses(t, toks) {
      CreatedParent(t, entry);
    } else {
      CreateNothing(t, toks);
      if Walk(t, toks).Some? {
        RewriteReached(t, toks, Walk(t, toks).value);
      }
    }
  }

  /** Import is all or nothing, and what it imports is found at the entry. */
  lemma ImportAllOrNothing(t: Plist, file: Plist, entry: string)
    ensures var e := ImportEffect(t, Some(file), entry);
            var toks := Tokens(entry);
            && (e.report != Done ==> e.tree == t)
            && (Misses(t, toks) ==> e.report == Done)
            && (e.report == Done ==>
                  var parent := Walk(Create(t, toks), Front(toks));
                  && parent.Some? && RouteOf(e.tree, Front(toks)).Some?
                  && Get(e.tree, RouteOf(e.tree, Front(toks)).value + [FilledSlot(parent.value, Last(toks))]) ==
                      Some(file))
  {
    var e := ImportEffect(t, Some(file), entry);
    var toks := Tokens(entry);
    var t1 := Create(t, toks);
    if Misses(t, toks) {
      CreatedParent(t, entry);
    } else {
      CreateNothing(t, toks);
    }
    if e.report == Done {
      var p := Walk(t1, Front(toks)).value;
      var i := if Atoi(Last(toks)) < 0 then 0 else Atoi(Last(toks));
      var p' := if p.Dict? then Dict(p.entries[Last(toks) := file])
                else Array(if i >= |p.items| then p.items + [file] else p.items[i := file]);
      RewriteReached(t1, Front(toks), p');
      WalkIsGet(e.tree, Front(toks));
      var s := FilledSlot(p, Last(toks));
      assert Has(p', s) && At(p', s) == file;
      GetConcat(e.tree, RouteOf(e.tree, Front(toks)).value, [s]);
      assert Get(file, [s][1..]) == Some(file);
    }
  }
}
