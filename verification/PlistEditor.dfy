/**
 The editor: one mutable property list and the commands that change it in place.  Every method is
 proved to have the effect that `PlistEffects` gives for its command, and to leave a tree.
 */
module PlistEditor {
  import opened Options
  import opened PlistTree
  import opened PlistText
  import opened PlistPath
  import opened PlistEffects
  import opened PlistLaws
  import opened PlistHeap
  import opened PlistCopy
  import opened PlistCommands

  /** The route of the first `n` tokens. */
  ghost function Prefix(t: Plist, toks: seq<string>, n: nat): Option<Route>
    requires n <= |toks|
  {
    RouteOf(t, toks[..n])
  }

  lemma PrefixNext(t: Plist, toks: seq<string>, n: nat)
    requires n < |toks| && Prefix(t, toks, n).Some?
    ensures Walk(t, toks[..n]).Some? && Get(t, Prefix(t, toks, n).value) == Walk(t, toks[..n])
    ensures var u, tok := Walk(t, toks[..n]).value, toks[n];
            && (Walk(t, toks[..n + 1]) == Step(u, tok))
            && (Prefix(t, toks, n + 1).Some? <==> Step(u, tok).Some?)
            && (Step(u, tok).Some? ==>
                  Prefix(t, toks, n + 1).value == Prefix(t, toks, n).value + (if tok == "" then [] else [Name(u, tok)]))
  {
    WalkIsGet(t, toks[..n]);
    assert toks[..n + 1] == toks[..n] + [toks[n]];
    var u, tok := Walk(t, toks[..n]).value, toks[n];
    WalkConcat(t, toks[..n], [tok]);
    RouteConcat(t, toks[..n], [tok]);
    assert [tok][1..] == [];
    if tok == "" {
      assert RouteOf(u, [tok]) == Some([]);
    } else if Has(u, Name(u, tok)) {
      RouteOfOne(u, tok);
    }
  }

  /** The tree after one missing dictionary has been created, as the walk sees it. */
  lemma GrowStep(t: Plist, toks: seq<string>, n: nat)
    requires n + 1 < |toks| && toks[n] != "" && Prefix(t, toks, n).Some?
    requires var d := Get(t, Prefix(t, toks, n).value); d.Some? && d.value.Dict? && toks[n] !in d.value.entries
    ensures var r := Prefix(t, toks, n).value;
            var t' := Put(t, r, Dict(Get(t, r).value.entries[toks[n] := Dict(map[])]));
            && Create(t', toks) == Create(t, toks)
            && Prefix(t', toks, n) == Some(r)
            && Prefix(t', toks, n + 1) == Some(r + [Key(toks[n])])
  {
    PrefixNext(t, toks, n);
    CreateOne(t, toks, n);
    var d' := Dict(Get(t, Prefix(t, toks, n).value).value.entries[toks[n] := Dict(map[])]);
    RewriteReached(t, toks[..n], d');
    PrefixNext(Rewrite(t, toks[..n], d'), toks, n);
  }

  lemma ReachKid(h: Heap, v: Value, r: Route, c: Container, s: Slot)
    requires Reach(h, v, r) == Some(Box(c)) && c in h && HasKid(h[c], s)
    ensures Reach(h, v, r + [s]) == Some(Kid(h[c], s))
  {
    ReachConcat(h, v, r, [s]);
    assert Reach(h, Kid(h[c], s), [s][1..]) == Some(Kid(h[c], s));
  }

  /** The slots before an insertion of `k` items at `i` that the slots after it come from. */
  ghost function InsertFrom(i: nat, k: nat): Slot -> Option<Slot> {
    (s: Slot) =>
      if !s.Index? || s.index < i then Some(s)
      else if s.index < i + k then None
      else Some(Index(s.index - k))
  }

  function Spliced<T>(s: seq<T>, i: nat, ys: seq<T>): seq<T>
    requires i <= |s|
  {
    s[..i] + ys + s[i..]
  }

  lemma SplicedAt<T>(s: seq<T>, i: nat, ys: seq<T>, k: nat)
    requires i <= |s| && k < |s| + |ys|
    ensures |Spliced(s, i, ys)| == |s| + |ys|
    ensures Spliced(s, i, ys)[k] == if k < i then s[k] else if k < i + |ys| then ys[k - i] else s[k - |ys|]
  {
  }

  lemma SpliceKids(xb: seq<Value>, xs: seq<Plist>, i: nat, vs: seq<Value>, ts: seq<Plist>, x: Heap)
    requires |xb| == |xs| && i <= |xs| && Forest(x, ArrayBody(vs), Array(ts))
    ensures var b, u := ArrayBody(Spliced(xb, i, vs)), Array(Spliced(xs, i, ts));
            && SameSlots(b, u)
            && Moved(ArrayBody(xb), Array(xs), b, u, InsertFrom(i, |ts|))
            && NewKids(x, b, u, InsertFrom(i, |ts|), {})
  {
    var b, u, from := ArrayBody(Spliced(xb, i, vs)), Array(Spliced(xs, i, ts)), InsertFrom(i, |ts|);
    forall s | Has(u, s)
      ensures from(s).Some? ==>
                && Has(Array(xs), from(s).value)
                && Kid(b, s) == Kid(ArrayBody(xb), from(s).value) && At(u, s) == At(Array(xs), from(s).value)
      ensures from(s).None? ==>
                && Has(Array(ts), Index(s.index - i))
                && Kid(b, s) == Kid(ArrayBody(vs), Index(s.index - i))
                && At(u, s) == At(Array(ts), Index(s.index - i))
    {
      SplicedAt(xb, i, vs, s.index);
      SplicedAt(xs, i, ts, s.index);
    }
  }

  /** The bindings of the first `i` listed keys. */
  ghost function Listed<V>(n: map<string, V>, order: seq<string>, i: nat): map<string, V>
    requires i <= |order|
  {
    map k | k in n && k in order[..i] :: n[k]
  }

  /** One more key in a dictionary that is being merged into. */
  lemma MergedNext(t: Plist, r: Route, d: map<string, Plist>, n: map<string, Plist>, order: seq<string>, i: nat)
    requires Get(t, r).Some? && Enumerates(order, n) && i < |order|
    ensures var k, done := order[i], d + Listed(n, order, i);
            && k in n
            && Get(Put(t, r, Dict(done)), r) == Some(Dict(done))
            && Put(Put(t, r, Dict(done)), r, Dict(done[k := n[k]])) == Put(t, r, Dict(d + Listed(n, order, i + 1)))
  {
    var k, done := order[i], d + Listed(n, order, i);
    GetPutSame(t, r, Dict(done));
    PutPut(t, r, Dict(done), Dict(done[k := n[k]]));
    ListedNext(d, n, order, i);
  }

  /** The values still to be merged share nothing with what is in the tree after the next one. */
  lemma StillApart(x: Heap, m: map<string, Value>, n: map<string, Plist>, order: seq<string>, i: nat,
      nodes: set<Container>)
    requires Forest(x, DictBody(m), Dict(n)) && Enumerates(order, n) && i < |order|
    requires forall k | k in n && k !in order[..i] :: Foot(x, m[k], n[k]) !! nodes
    ensures order[i] in n && Foot(x, m[order[i]], n[order[i]]) !! nodes
    ensures forall k | k in n && k !in order[..i + 1] ::
              Foot(x, m[k], n[k]) !! nodes + Foot(x, m[order[i]], n[order[i]])
  {
    var k := order[i];
    assert k !in order[..i] && order[..i + 1] == order[..i] + [k];
    forall l | l in n && l !in order[..i + 1]
      ensures Foot(x, m[l], n[l]) !! nodes + Foot(x, m[k], n[k])
    {
      assert l !in order[..i] && l != k;
      KeysApart(x, m, n, k, l);
    }
  }

  lemma ListedNext<V>(d: map<string, V>, n: map<string, V>, order: seq<string>, i: nat)
    requires i < |order| && order[i] in n
    ensures (d + Listed(n, order, i))[order[i] := n[order[i]]] == d + Listed(n, order, i + 1)
  {
    assert order[..i + 1] == order[..i] + [order[i]];
  }

  /** The values of a loaded dictionary, listed in any order of its keys, are still separate trees. */
  lemma OrderedForest(x: Heap, m: map<string, Value>, n: map<string, Plist>, order: seq<string>)
    requires Forest(x, DictBody(m), Dict(n)) && Enumerates(order, n)
    ensures Forest(x, ArrayBody(InOrder(m, order)), Array(InOrder(n, order)))
  {
    var b, t := ArrayBody(InOrder(m, order)), Array(InOrder(n, order));
    forall s, s' | Has(t, s) && Has(t, s')
      ensures Tree(x, Kid(b, s), At(t, s))
      ensures s != s' ==> Foot(x, Kid(b, s), At(t, s)) !! Foot(x, Kid(b, s'), At(t, s'))
    {
      KeysApart(x, m, n, order[s.index], order[s'.index]);
    }
  }

  lemma ListedNone<V>(d: map<string, V>, n: map<string, V>, order: seq<string>)
    ensures d + Listed(n, order, 0) == d
  {
  }

  lemma ListedAll<V>(n: map<string, V>, order: seq<string>)
    requires Enumerates(order, n)
    ensures Listed(n, order, |order|) == n
  {
    assert order[..|order|] == order;
  }

  /** A value needs only the containers of its footprint. */
  lemma Alone(own: set<Container>, v: Value, t: Plist)
    requires Tree(Snapshot(own), v, t)
    ensures Foot(Snapshot(own), v, t) <= own
    ensures Tree(Snapshot(Foot(Snapshot(own), v, t)), v, t)
  {
    FootInHeap(Snapshot(own), v, t);
    Frame(Snapshot(own), Snapshot(Foot(Snapshot(own), v, t)), v, t);
  }

  lemma KeysApart(x: Heap, m: map<string, Value>, n: map<string, Plist>, k: string, l: string)
    requires Forest(x, DictBody(m), Dict(n)) && k in n && l in n
    ensures Tree(x, m[k], n[k])
    ensures k != l ==> Foot(x, m[k], n[k]) !! Foot(x, m[l], n[l])
  {
    assert Has(Dict(n), Key(k)) && Has(Dict(n), Key(l));
    assert k != l ==> Key(k) != Key(l);
  }

  /** Every token that the walk looks up in an array is one whose index the C library reads the same way. */
  predicate PlainWalk(t: Plist, toks: seq<string>) {
    forall n | 0 <= n < |toks| :: Indexes(t, toks, n) ==> PlainIndex(toks[n])
  }

  lemma StillPlain(t: Plist, t0: Plist, autoCreate: bool, toks: seq<string>, n: nat)
    requires n < |toks| && PlainWalk(t0, toks) && (if autoCreate then Create(t, toks) == Create(t0, toks) else t == t0)
    ensures Indexes(t, toks, n) ==> PlainIndex(toks[n])
  {
    CreateIndexes(t, toks, n);
    CreateIndexes(t0, toks, n);
  }

  class Editor {
    var root: Value
    ghost var nodes: set<Container>
    ghost var tree: Plist

    /** The containers form a tree and hold exactly `tree`. */
    ghost predicate Valid()
      reads this, nodes
    {
      Tree(Snapshot(nodes), root, tree)
    }

    /** The program starts on what it loaded, or on an empty dictionary when there was nothing to load. */
    constructor (loaded: Option<Value>, ghost own: set<Container>, ghost t: Plist)
      requires loaded.Some? ==> Tree(Snapshot(own), loaded.value, t)
      ensures Valid()
      ensures loaded.Some? ==> root == loaded.value && nodes == own && tree == t
      ensures loaded.None? ==> fresh(nodes) && tree == Dict(map[])
    {
      var c := new Container(DictBody(map[]));
      root := if loaded.Some? then loaded.value else Box(c);
      nodes := if loaded.Some? then own else {c};
      tree := if loaded.Some? then t else Dict(map[]);
    }

    // ---- Changing one container ---------------------------------------------------------------------

    /**
     Give the container at route `r` a new body.  Children come from old slots as `from` says; the
     others are trees over `extra`, containers that were not part of the list before.
     */
    method SetBody(c: Container, b: Body, ghost r: Route, ghost u: Plist, ghost from: Slot -> Option<Slot>,
        ghost extra: set<Container>)
      requires Valid() && Get(tree, r).Some? && Reach(Snapshot(nodes), root, r) == Some(Box(c))
      requires c in nodes && SameSlots(c.body, Get(tree, r).value) && SameSlots(b, u)
      requires extra !! nodes && Moved(c.body, Get(tree, r).value, b, u, from)
      requires NewKids(Snapshot(extra), b, u, from, {})
      modifies c, `nodes, `tree
      ensures Valid() && tree == Put(old(tree), r, u) && nodes == old(nodes) + extra && c.body == b
      ensures Reach(Snapshot(nodes), root, r) == Some(Box(c))
    {
      ghost var h := Snapshot(nodes);
      c.body := b;
      ghost var h' := Snapshot(nodes + extra);
      ghost var x := Snapshot(extra);
      FootInHeap(h, root, tree);
      forall s | Has(u, s) && from(s).None?
        ensures Tree(h', Kid(b, s), At(u, s)) && Foot(h', Kid(b, s), At(u, s)) == Foot(x, Kid(b, s), At(u, s)) <= extra
      {
        FootInHeap(x, Kid(b, s), At(u, s));
        Frame(x, h', Kid(b, s), At(u, s));
      }
      EditAt(h, h', root, tree, r, u, from);
      ReachStays(h, h', root, tree, r, c);
      nodes := nodes + extra;
      tree := Put(tree, r, u);
    }

    /** `CFDictionarySetValue`: bind `key` to a value whose containers were not part of the list. */
    method PutKey(c: Container, key: string, v: Value, ghost r: Route, ghost tv: Plist, ghost extra: set<Container>)
      requires Valid() && Get(tree, r).Some? && Reach(Snapshot(nodes), root, r) == Some(Box(c))
      requires Get(tree, r).value.Dict? && extra !! nodes && Tree(Snapshot(extra), v, tv)
      modifies c, `nodes, `tree
      ensures Valid() && nodes == old(nodes) + extra && c in nodes
      ensures Reach(Snapshot(nodes), root, r) == Some(Box(c))
      ensures tree == Put(old(tree), r, Dict(old(Get(tree, r).value.entries)[key := tv]))
      ensures old(c.body).DictBody? && c.body == DictBody(old(c.body.entries)[key := v])
    {
      ReachTree(Snapshot(nodes), root, tree, r);
      ghost var u := Dict(Get(tree, r).value.entries[key := tv]);
      SetBody(c, DictBody(c.body.entries[key := v]), r, u, s => if s == Key(key) then None else Some(s), extra);
    }

    /** `CFArraySetValueAtIndex`. */
    method PutItem(c: Container, i: nat, v: Value, ghost r: Route, ghost tv: Plist, ghost extra: set<Container>)
      requires Valid() && Get(tree, r).Some? && Reach(Snapshot(nodes), root, r) == Some(Box(c))
      requires Get(tree, r).value.Array? && i < |Get(tree, r).value.items|
      requires extra !! nodes && Tree(Snapshot(extra), v, tv)
      modifies c, `nodes, `tree
      ensures Valid() && nodes == old(nodes) + extra
      ensures tree == Put(old(tree), r, Array(old(Get(tree, r).value.items)[i := tv]))
    {
      ReachTree(Snapshot(nodes), root, tree, r);
      ghost var u := Array(Get(tree, r).value.items[i := tv]);
      SetBody(c, ArrayBody(c.body.items[i := v]), r, u, s => if s == Index(i) then None else Some(s), extra);
    }

    /** `CFArrayReplaceValues` over an empty range: insert values whose containers were not part of the list. */
    method SpliceItems(c: Container, i: nat, vs: seq<Value>, ghost r: Route, ghost ts: seq<Plist>,
        ghost extra: set<Container>)
      requires Valid() && Get(tree, r).Some? && Reach(Snapshot(nodes), root, r) == Some(Box(c))
      requires Get(tree, r).value.Array? && i <= |Get(tree, r).value.items|
      requires extra !! nodes && Forest(Snapshot(extra), ArrayBody(vs), Array(ts))
      modifies c, `nodes, `tree
      ensures Valid() && nodes == old(nodes) + extra
      ensures tree == Put(old(tree), r, Array(Spliced(old(Get(tree, r).value.items), i, ts)))
    {
      ReachTree(Snapshot(nodes), root, tree, r);
      SpliceKids(c.body.items, Get(tree, r).value.items, i, vs, ts, Snapshot(extra));
      SetBody(c, ArrayBody(Spliced(c.body.items, i, vs)), r, Array(Spliced(Get(tree, r).value.items, i, ts)),
              InsertFrom(i, |ts|), extra);
    }

    /** `CFArrayInsertValueAtIndex`. */
    method InsertItem(c: Container, i: nat, v: Value, ghost r: Route, ghost tv: Plist, ghost extra: set<Container>)
      requires Valid() && Get(tree, r).Some? && Reach(Snapshot(nodes), root, r) == Some(Box(c))
      requires Get(tree, r).value.Array? && i <= |Get(tree, r).value.items|
      requires extra !! nodes && Tree(Snapshot(extra), v, tv)
      modifies c, `nodes, `tree
      ensures Valid() && nodes == old(nodes) + extra
      ensures tree == Put(old(tree), r, Array(InsertAt(old(Get(tree, r).value.items), i, tv)))
    {
      SpliceItems(c, i, [v], r, [tv], extra);
    }

    /** `CFDictionaryRemoveValue`. */
    method RemoveKey(c: Container, key: string, ghost r: Route)
      requires Valid() && Get(tree, r).Some? && Reach(Snapshot(nodes), root, r) == Some(Box(c))
      requires Get(tree, r).value.Dict?
      modifies c, `nodes, `tree
      ensures Valid() && nodes == old(nodes)
      ensures tree == Put(old(tree), r, Dict(old(Get(tree, r).value.entries) - {key}))
    {
      ReachTree(Snapshot(nodes), root, tree, r);
      SetBody(c, DictBody(c.body.entries - {key}), r, Dict(Get(tree, r).value.entries - {key}), s => Some(s), {});
    }

    /** `CFArrayRemoveValueAtIndex`. */
    method RemoveItem(c: Container, i: nat, ghost r: Route)
      requires Valid() && Get(tree, r).Some? && Reach(Snapshot(nodes), root, r) == Some(Box(c))
      requires Get(tree, r).value.Array? && i < |Get(tree, r).value.items|
      modifies c, `nodes, `tree
      ensures Valid() && nodes == old(nodes)
      ensures tree == Put(old(tree), r, Array(RemoveAt(old(Get(tree, r).value.items), i)))
    {
      ReachTree(Snapshot(nodes), root, tree, r);
      SetBody(c, ArrayBody(RemoveAt(c.body.items, i)), r, Array(RemoveAt(Get(tree, r).value.items, i)),
              (s: Slot) => if s.Index? && s.index >= i then Some(Index(s.index + 1)) else Some(s), {});
    }

    // ---- Path resolution ----------------------------------------------------------------------------

    /** What path resolution may change: it adds containers and keys, and moves nothing. */
    twostate predicate OnlyGrown()
      reads this, nodes
    {
      && root == old(root)
      && old(nodes) <= nodes && fresh(nodes - old(nodes))
      && GrownHeap(old(Snapshot(nodes)), Snapshot(nodes))
    }

    /** The number reader of the port, or the one of the C original. */
    static method IndexOfToken(tok: string, inC: bool) returns (index: int)
      requires inC ==> PlainIndex(tok)
      ensures index == Atoi(tok)
    {
      if inC {
        index := ReadIndexC(tok);
      } else {
        index := ReadIndex(tok);
      }
    }

    /**
     One step of the walk: look a token up in the current position, and create a dictionary when a
     key is missing, creation is asked for and more tokens follow.
     */
    method Descend(pos: Value, tok: string, more: bool, autoCreate: bool, inC: bool, ghost toks: seq<string>,
        ghost n: nat)
      returns (next: Option<Value>)
      requires Valid() && n < |toks| && toks[n] == tok && more == (n + 1 < |toks|)
      requires inC && Indexes(tree, toks, n) ==> PlainIndex(tok)
      requires Prefix(tree, toks, n).Some? && Reach(Snapshot(nodes), root, Prefix(tree, toks, n).value) == Some(pos)
      modifies `nodes, `tree, nodes
      ensures Valid() && OnlyGrown()
      ensures !autoCreate ==> tree == old(tree) && nodes == old(nodes) && Snapshot(nodes) == old(Snapshot(nodes))
      ensures autoCreate ==> Create(tree, toks) == Create(old(tree), toks)
      ensures Prefix(tree, toks, n) == old(Prefix(tree, toks, n))
      ensures Reach(Snapshot(nodes), root, Prefix(tree, toks, n).value) == Some(pos)
      ensures next.Some? <==> Prefix(tree, toks, n + 1).Some?
      ensures next.Some? ==> Reach(Snapshot(nodes), root, Prefix(tree, toks, n + 1).value) == next
      ensures next.None? && autoCreate ==> !Misses(tree, toks)
    {
      ghost var h := Snapshot(nodes);
      ghost var r := Prefix(tree, toks, n).value;
      PrefixNext(tree, toks, n);
      ghost var u := Get(tree, r).value;
      ReachTree(h, root, tree, r);
      ReachConcat(h, root, r, [Name(u, tok)]);
      WalkIsGet(tree, toks[..n]);
      if tok == "" {
        assert r + [] == r;
        return Some(pos);
      }
      match pos {
        case Atom(_) =>
          next := None;
        case Box(c) =>
          match c.body {
            case DictBody(m) =>
              if tok in m {
                next := Some(m[tok]);
              } else if autoCreate && more {
                next := CreateDict(c, tok, toks, n);
              } else {
                next := None;
              }
            case ArrayBody(xs) =>
              var index := IndexOfToken(tok, inC);
              next := if index < 0 || index >= |xs| then None else Some(xs[index]);
          }
      }
      if next.None? && autoCreate {
        NoMiss(tree, toks, n);
      }
    }

    /** The creating branch of `Descend`. */
    method CreateDict(c: Container, tok: string, ghost toks: seq<string>, ghost n: nat) returns (made: Option<Value>)
      requires Valid() && n + 1 < |toks| && toks[n] == tok != ""
      requires Prefix(tree, toks, n).Some? && Reach(Snapshot(nodes), root, Prefix(tree, toks, n).value) == Some(Box(c))
      requires c in nodes && c.body.DictBody? && tok !in c.body.entries
      requires Get(tree, Prefix(tree, toks, n).value).Some?
      modifies `nodes, `tree, nodes
      ensures Valid() && OnlyGrown()
      ensures Create(tree, toks) == Create(old(tree), toks)
      ensures Prefix(tree, toks, n) == old(Prefix(tree, toks, n))
      ensures Reach(Snapshot(nodes), root, Prefix(tree, toks, n).value) == Some(Box(c))
      ensures made.Some? && Prefix(tree, toks, n + 1).Some?
      ensures Reach(Snapshot(nodes), root, Prefix(tree, toks, n + 1).value) == made
    {
      ghost var h := Snapshot(nodes);
      ghost var r := Prefix(tree, toks, n).value;
      ReachTree(h, root, tree, r);
      GrowStep(tree, toks, n);
      var x := new Container(DictBody(map[]));
      made := Some(Box(x));
      PutKey(c, tok, Box(x), r, Dict(map[]), {x});
      ghost var h' := Snapshot(nodes);
      assert GrownHeap(h, h');
      ReachGrown(h, h', root, r);
      ReachKid(h', root, r, c, Key(tok));
    }

    /** What resolving an entry delivers, said of the tree as it is afterwards. */
    ghost predicate Resolved(entry: string, parent: Option<Value>, existing: Option<Value>, leaf: string)
      reads this, nodes
    {
      var toks := Tokens(entry);
      var above, at := RouteOf(tree, Front(toks)), RouteOf(tree, toks);
      && (parent.Some? <==> above.Some?)
      && (existing.Some? <==> at.Some?)
      && (parent.Some? ==> Reach(Snapshot(nodes), root, above.value) == parent && leaf == Last(toks))
      && (existing.Some? ==> Reach(Snapshot(nodes), root, at.value) == existing)
      && 0 < Consumed(tree, toks) && leaf == toks[Consumed(tree, toks) - 1]
    }

    /** The state of the walk after `n` tokens. */
    ghost predicate Walked(toks: seq<string>, n: nat, pos: Option<Value>, lastPos: Option<Value>, lastTok: string)
      requires n <= |toks|
      reads this, nodes
    {
      && (pos.Some? <==> Prefix(tree, toks, n).Some?)
      && (pos.Some? ==> Reach(Snapshot(nodes), root, Prefix(tree, toks, n).value) == pos)
      && (n == 0 ==> pos == Some(root))
      && (n > 0 ==>
            && lastPos.Some? && lastTok == toks[n - 1] && Prefix(tree, toks, n - 1).Some?
            && Reach(Snapshot(nodes), root, Prefix(tree, toks, n - 1).value) == lastPos)
    }

    lemma WalkEnded(entry: string, n: nat, pos: Option<Value>, lastPos: Option<Value>, lastTok: string, ranOut: bool)
      requires 0 < n <= |Tokens(entry)| && Walked(Tokens(entry), n, pos, lastPos, lastTok)
      requires ranOut ==> n == |Tokens(entry)|
      requires !ranOut ==> n < |Tokens(entry)| && pos.None?
      ensures Resolved(entry, if ranOut then lastPos else None, pos, lastTok)
    {
      var toks := Tokens(entry);
      assert toks[..|toks|] == toks;
      if !ranOut {
        assert Front(toks) == toks[..n] + toks[n..|toks| - 1];
        assert toks == toks[..n] + toks[n..];
        WalkIsGet(tree, toks[..n]);
        WalkConcat(tree, toks[..n], toks[n..|toks| - 1]);
        WalkConcat(tree, toks[..n], toks[n..]);
        WalkIsGet(tree, Front(toks));
        WalkIsGet(tree, toks);
      }
      WalkIsGet(tree, toks[..n - 1]);
      WalkIsGet(tree, toks[..n]);
      ConsumedIs(tree, toks, n);
    }

    lemma CreationEnded(toks: seq<string>, n: nat, pos: Option<Value>, lastPos: Option<Value>, lastTok: string)
      requires n <= |toks| && Walked(toks, n, pos, lastPos, lastTok)
      requires pos.None? ==> !Misses(tree, toks)
      requires pos.Some? ==> n == |toks|
      ensures Create(tree, toks) == tree
    {
      if pos.Some? {
        WalkIsGet(tree, toks[..n]);
        NoMiss(tree, toks, n);
      }
      CreateNothing(tree, toks);
    }

    /** How far creation has come since the heap was `h0` and the tree `t0`; without creation, nowhere. */
    ghost predicate Progress(h0: Heap, t0: Plist, autoCreate: bool, toks: seq<string>)
      reads this, nodes
    {
      && GrownHeap(h0, Snapshot(nodes))
      && (autoCreate ==> Create(tree, toks) == Create(t0, toks))
      && (!autoCreate ==> tree == t0 && Snapshot(nodes) == h0)
    }

    /** The invariant of both loops after `n` tokens. */
    ghost predicate Walking(h0: Heap, t0: Plist, autoCreate: bool, toks: seq<string>, n: nat,
                            pos: Option<Value>, lastPos: Option<Value>, lastTok: string)
      reads this, nodes
    {
      && n <= |toks| && Valid() && Progress(h0, t0, autoCreate, toks)
      && Walked(toks, n, pos, lastPos, lastTok)
      && (pos.None? && autoCreate ==> !Misses(tree, toks))
    }

    /** The body of both loops, once the next token is there. */
    method Advance(pos: Value, tok: string, more: bool, autoCreate: bool, inC: bool, ghost toks: seq<string>,
        ghost n: nat, ghost h0: Heap, ghost t0: Plist, ghost lastPos: Option<Value>, ghost lastTok: string)
      returns (next: Option<Value>)
      requires n < |toks| && toks[n] == tok && more == (n + 1 < |toks|)
      requires inC && Indexes(tree, toks, n) ==> PlainIndex(tok)
      requires Walking(h0, t0, autoCreate, toks, n, Some(pos), lastPos, lastTok)
      modifies `nodes, `tree, nodes
      ensures old(nodes) <= nodes && fresh(nodes - old(nodes))
      ensures Walking(h0, t0, autoCreate, toks, n + 1, next, Some(pos), tok)
    {
      ghost var h := Snapshot(nodes);
      next := Descend(pos, tok, more, autoCreate, inC, toks, n);
      GrownTwice(h0, h, Snapshot(nodes));
    }

    /** The loop of the Rust walk: an index into the trimmed path, and none once the last token is out. */
    method Scan(buf: string, autoCreate: bool, ghost toks: seq<string>)
      returns (pos: Option<Value>, lastPos: Option<Value>, lastTok: string, ranOut: bool, ghost n: nat)
      requires Valid() && Pending(buf, Some(0), toks)
      modifies `nodes, `tree, nodes
      ensures old(nodes) <= nodes && fresh(nodes - old(nodes))
      ensures Walking(old(Snapshot(nodes)), old(tree), autoCreate, toks, n, pos, lastPos, lastTok)
      ensures 0 < n && (if ranOut then n == |toks| else n < |toks| && pos.None?)
    {
      pos, lastPos, lastTok, ranOut, n := Some(root), None, "", false, 0;
      var p: Option<nat> := Some(0);
      while true
        invariant old(nodes) <= nodes && fresh(nodes - old(nodes))
        invariant Walking(old(Snapshot(nodes)), old(tree), autoCreate, toks, n, pos, lastPos, lastTok)
        invariant Pending(buf, p, toks[n..])
        decreases |toks| - n
      {
        if p.None? {
          ranOut := true;
          break;
        }
        var tok, next := NextToken(buf, p.value, toks[n..]);
        p := next;
        assert toks[n + 1..] == toks[n..][1..];
        if pos.None? {
          break;
        }
        var next' := Advance(pos.value, tok, p.Some?, autoCreate, false, toks, n, old(Snapshot(nodes)), old(tree),
            lastPos, lastTok);
        lastPos, pos, lastTok := pos, next', tok;
        n := n + 1;
      }
    }

    method Resolve(entry: string, autoCreate: bool)
      returns (parent: Option<Value>, existing: Option<Value>, leaf: string)
      requires Valid()
      modifies `nodes, `tree, nodes
      ensures Valid() && OnlyGrown() && Resolved(entry, parent, existing, leaf)
      ensures !autoCreate ==> tree == old(tree) && nodes == old(nodes) && Snapshot(nodes) == old(Snapshot(nodes))
      ensures autoCreate ==> tree == Create(old(tree), Tokens(entry))
    {
      var buf := Trim(entry);
      assert buf[0..|buf|] == buf;
      var pos, lastPos, lastTok, ranOut, n := Scan(buf, autoCreate, Tokens(entry));
      parent, existing, leaf := if ranOut then lastPos else None, pos, lastTok;
      WalkEnded(entry, n, pos, lastPos, lastTok, ranOut);
      assert !autoCreate ==> nodes == Snapshot(nodes).Keys == old(Snapshot(nodes)).Keys == old(nodes);
      if autoCreate {
        CreationEnded(Tokens(entry), n, pos, lastPos, lastTok);
      }
    }

    /** One round of the C loop: take a token and, unless the walk has failed, look it up. */
    method RoundC(buf: array<char>, str: nat, pos: Option<Value>, autoCreate: bool, ghost z: nat,
        ghost toks: seq<string>, ghost n: nat,
                  ghost h0: Heap, ghost t0: Plist, ghost lastPos: Option<Value>,
                  ghost earlier: nat, ghost earlierEnd: nat, ghost earlierText: string)
      returns (next: Option<nat>, tok: nat, pos': Option<Value>, ghost stop: nat, ghost text: string)
      requires Walking(h0, t0, autoCreate, toks, n, pos, lastPos, earlierText) && n < |toks| && PlainWalk(t0, toks)
      requires PendingC(buf, Some(str), z, toks[n..])
      requires n > 0 ==> StillThere(buf, earlier, earlierEnd, earlierText, Some(str))
      modifies `nodes, `tree, nodes, buf
      ensures old(nodes) <= nodes && fresh(nodes - old(nodes))
      ensures PendingC(buf, next, z, toks[n + 1..])
      ensures pos.Some? ==>
                && Walking(h0, t0, autoCreate, toks, n + 1, pos', pos, text)
                && StillThere(buf, tok, stop, text, next)
      ensures pos.None? ==>
                && Walking(h0, t0, autoCreate, toks, n, pos, lastPos, earlierText)
                && (n > 0 ==> StillThere(buf, earlier, earlierEnd, earlierText, next))
    {
      tok, next, stop := TakeTokenC(buf, str, z, toks[n..], earlier, earlierEnd, earlierText, n > 0);
      assert toks[n + 1..] == toks[n..][1..];
      pos', text := None, toks[n];
      if pos.Some? {
        var word := ReadCString(buf, tok, stop);
        StillPlain(tree, t0, autoCreate, toks, n);
        pos' := Advance(pos.value, word, next.Some?, autoCreate, true, toks, n, h0, t0, lastPos, earlierText);
      }
    }

    /** The C loop: `strtok_empty` on a private copy of the path, pointers for the tokens. */
    method ScanC(buf: array<char>, autoCreate: bool, ghost toks: seq<string>)
      returns (pos: Option<Value>, lastPos: Option<Value>, lastTok: nat, ranOut: bool, ghost n: nat,
              ghost lastEnd: nat, ghost lastText: string)
      requires Valid() && 0 < buf.Length && PendingC(buf, Some(0), buf.Length - 1, toks)
      requires PlainWalk(tree, toks)
      modifies `nodes, `tree, nodes, buf
      ensures old(nodes) <= nodes && fresh(nodes - old(nodes))
      ensures Walking(old(Snapshot(nodes)), old(tree), autoCreate, toks, n, pos, lastPos, lastText)
      ensures CString(buf, lastTok, lastEnd) && buf[lastTok..lastEnd] == lastText
      ensures 0 < n && (if ranOut then n == |toks| else n < |toks| && pos.None?)
    {
      pos, lastPos, lastTok, ranOut, n, lastEnd, lastText := Some(root), None, 0, false, 0, 0, "";
      ghost var z: nat := buf.Length - 1;
      var p: Option<nat> := Some(0);
      while true
        invariant old(nodes) <= nodes && fresh(nodes - old(nodes))
        invariant Walking(old(Snapshot(nodes)), old(tree), autoCreate, toks, n, pos, lastPos, lastText)
        invariant PendingC(buf, p, z, toks[n..])
        invariant n > 0 ==> StillThere(buf, lastTok, lastEnd, lastText, p)
        decreases |toks| - n
      {
        if p.None? {
          ranOut := true;
          break;
        }
        var next, tok, found, stop, text :=
          RoundC(buf, p.value, pos, autoCreate, z, toks, n, old(Snapshot(nodes)), old(tree), lastPos, lastTok, lastEnd,
              lastText);
        p := next;
        if pos.None? {
          break;
        }
        lastPos, pos, lastTok := pos, found, tok;
        lastEnd, lastText := stop, text;
        n := n + 1;
      }
    }

    /** The C walk delivers the same triple and creates the same dictionaries as the Rust walk. */
    method ResolveC(entry: string, autoCreate: bool)
      returns (parent: Option<Value>, existing: Option<Value>, leaf: string)
      requires Valid() && '\0' !in entry
      requires PlainWalk(tree, Tokens(entry))
      modifies `nodes, `tree, nodes
      ensures Valid() && OnlyGrown() && Resolved(entry, parent, existing, leaf)
      ensures !autoCreate ==> tree == old(tree) && nodes == old(nodes) && Snapshot(nodes) == old(Snapshot(nodes))
      ensures autoCreate ==> tree == Create(old(tree), Tokens(entry))
    {
      var path := Trim(entry);
      var buf := Duplicate(path);
      assert buf[0..buf.Length - 1] == path;
      var pos, lastPos, lastTok, ranOut, n, lastEnd, lastText := ScanC(buf, autoCreate, Tokens(entry));
      leaf := ReadCString(buf, lastTok, lastEnd);
      parent, existing := if ranOut then lastPos else None, pos;
      WalkEnded(entry, n, pos, lastPos, leaf, ranOut);
      assert !autoCreate ==> nodes == Snapshot(nodes).Keys == old(Snapshot(nodes)).Keys == old(nodes);
      if autoCreate {
        CreationEnded(Tokens(entry), n, pos, lastPos, leaf);
      }
    }

    // ---- The commands ---------------------------------------------------------------------------------

    /** The string branch scans the text, the others ask the C library. */
    method ParseText(c: Libc, ty: PropertyType, text: string) returns (r: Option<Scalar>)
      ensures r == ParseValue(c, ty, text)
    {
      if ty == StringType || ty == DataType {
        var u := ReadText(text);
        r := if u.None? then None else if ty == StringType then Some(Str(u.value)) else Some(Data(text));
      } else {
        r := ParseValue(c, ty, text);
      }
    }

    /** The new value of an Add, in a container of its own when it is one. */
    method MakeValue(c: Libc, ty: PropertyType, text: string) returns (v: Option<Value>, ghost own: set<Container>)
      ensures fresh(own) && (v.Some? <==> NewValue(c, ty, text).Some?)
      ensures v.Some? ==> Tree(Snapshot(own), v.value, NewValue(c, ty, text).value)
    {
      own := {};
      if ty == ArrayType {
        var x := new Container(ArrayBody([]));
        v, own := Some(Box(x)), {x};
      } else if ty == DictType {
        var x := new Container(DictBody(map[]));
        v, own := Some(Box(x)), {x};
      } else {
        var r := ParseText(c, ty, text);
        v := if r.None? then None else Some(Atom(r.value));
      }
    }

    /** What the parent that resolution delivered is in the tree. */
    lemma ParentIs(entry: string, parent: Option<Value>, existing: Option<Value>, leaf: string)
      requires Valid() && Resolved(entry, parent, existing, leaf)
      ensures var toks := Tokens(entry);
              && (parent.Some? <==> Walk(tree, Front(toks)).Some?)
              && (existing.Some? <==> Walk(tree, toks).Some?)
              && (existing.Some? ==> parent.Some?)
              && (parent.Some? ==>
                    var r, p := RouteOf(tree, Front(toks)).value, Walk(tree, Front(toks)).value;
                    && Get(tree, r) == Some(p) && Tree(Snapshot(nodes), parent.value, p)
                    && (parent.value.Box? ==> parent.value.container in nodes)
                    && forall u :: Rewrite(tree, Front(toks), u) == Put(tree, r, u))
              && (existing.Some? ==> Tree(Snapshot(nodes), existing.value, Walk(tree, toks).value))
    {
      var toks := Tokens(entry);
      WalkIsGet(tree, Front(toks));
      WalkIsGet(tree, toks);
      WalkLast(tree, toks);
      if parent.Some? {
        ReachTree(Snapshot(nodes), root, tree, RouteOf(tree, Front(toks)).value);
      }
      if existing.Some? {
        ReachTree(Snapshot(nodes), root, tree, RouteOf(tree, toks).value);
      }
    }

    method AddEntry(c: Libc, entry: string, ty: PropertyType, text: string) returns (rep: Report)
      requires Valid()
      modifies `nodes, `tree, nodes
      ensures Valid() && fresh(nodes - old(nodes))
      ensures Effect(tree, rep) == AddEntryEffect(c, old(tree), entry, ty, text)
    {
      var value, own := MakeValue(c, ty, text);
      if value.None? {
        return NotParsed;
      }
      var parent, existing, leaf := Resolve(entry, true);
      rep := AddToParent(entry, parent, existing, leaf, value.value, NewValue(c, ty, text).value, own);
    }

    /** The second half of Add, once the parent is known. */
    method AddToParent(entry: string, parent: Option<Value>, existing: Option<Value>, leaf: string,
                       v: Value, ghost tv: Plist, ghost own: set<Container>) returns (rep: Report)
      requires Valid() && Resolved(entry, parent, existing, leaf)
      requires own !! nodes && Tree(Snapshot(own), v, tv)
      modifies `nodes, `tree, nodes
      ensures Valid() && nodes <= old(nodes) + own
      ensures Effect(tree, rep) == AddUnder(old(tree), Tokens(entry), tv)
    {
      ParentIs(entry, parent, existing, leaf);
      if parent.None? {
        return NoEntry;
      }
      ghost var r := RouteOf(tree, Front(Tokens(entry))).value;
      match parent.value {
        case Atom(_) =>
          return if existing.Some? then Exists else CannotAdd;
        case Box(c) =>
          match c.body {
            case ArrayBody(xs) =>
              var index := ReadIndex(leaf);
              InsertItem(c, Clamp(index, |xs|), v, r, tv, own);
            case DictBody(m) =>
              if existing.Some? {
                return Exists;
              }
              assert leaf !in m by { WalkLast(tree, Tokens(entry)); }
              PutKey(c, leaf, v, r, tv, own);
          }
          rep := Done;
      }
    }

    /** Overwriting the scalar at an entry, once its parent is known. */
    method WriteToParent(entry: string, parent: Option<Value>, existing: Option<Value>, leaf: string, v: Scalar)
      returns (rep: Report)
      requires Valid() && Resolved(entry, parent, existing, leaf)
      requires existing.Some? && existing.value.Atom?
      requires Walk(tree, Tokens(entry)).Some? && Walk(tree, Tokens(entry)).value.Leaf?
      modifies `nodes, `tree, nodes
      ensures Valid() && nodes == old(nodes)
      ensures Effect(tree, rep) == WriteEffect(old(tree), Tokens(entry), v)
    {
      ParentIs(entry, parent, existing, leaf);
      ghost var toks := Tokens(entry);
      WalkLast(tree, toks);
      ghost var r := RouteOf(tree, Front(toks)).value;
      match parent.value {
        case Atom(_) => return Trap;
        case Box(c) =>
          match c.body {
            case DictBody(m) =>
              if leaf in m {
                PutKey(c, leaf, Atom(v), r, Leaf(v), {});
              } else {
                PutGet(tree, r);
              }
            case ArrayBody(_) =>
              var index := ReadIndex(leaf);
              PutItem(c, index, Atom(v), r, Leaf(v), {});
          }
          rep := Done;
      }
    }

    method SetEntry(c: Libc, entry: string, text: string) returns (rep: Report)
      requires Valid()
      modifies `nodes, `tree, nodes
      ensures Valid() && nodes == old(nodes)
      ensures Effect(tree, rep) == SetEffect(c, old(tree), entry, text)
    {
      var parent, existing, leaf := Resolve(entry, false);
      ParentIs(entry, parent, existing, leaf);
      if existing.None? {
        return NoEntry;
      }
      if existing.value.Box? {
        return OnContainer;
      }
      var v := ParseText(c, InferType(Leaf(existing.value.scalar)), text);
      if v.None? {
        return NotParsed;
      }
      rep := WriteToParent(entry, parent, existing, leaf, v.value);
    }

    method DeleteEntry(entry: string) returns (rep: Report)
      requires Valid()
      modifies `nodes, `tree, nodes
      ensures Valid() && nodes == old(nodes)
      ensures Effect(tree, rep) == DeleteEffect(old(tree), entry)
    {
      var parent, existing, leaf := Resolve(entry, false);
      ParentIs(entry, parent, existing, leaf);
      if existing.None? {
        return NoEntry;
      }
      ghost var r := RouteOf(tree, Front(Tokens(entry))).value;
      match parent.value {
        case Atom(_) => return Trap;
        case Box(c) =>
          match c.body {
            case DictBody(m) => RemoveKey(c, leaf, r);
            case ArrayBody(xs) =>
              var index := ReadIndex(leaf);
              if index < 0 || index >= |xs| {
                return Trap;
              }
              RemoveItem(c, index, r);
          }
          rep := Done;
      }
    }

    /** Putting a copy under the destination's parent. */
    method CopyToParent(entry: string, parent: Option<Value>, existing: Option<Value>, leaf: string,
                        v: Value, ghost tv: Plist, ghost own: set<Container>) returns (rep: Report)
      requires Valid() && Resolved(entry, parent, existing, leaf) && existing.None?
      requires own !! nodes && Tree(Snapshot(own), v, tv)
      modifies `nodes, `tree, nodes
      ensures Valid() && nodes <= old(nodes) + own
      ensures Effect(tree, rep) == CopyUnder(old(tree), Tokens(entry), tv)
    {
      ParentIs(entry, parent, existing, leaf);
      if parent.None? {
        return Trap;
      }
      ghost var r := RouteOf(tree, Front(Tokens(entry))).value;
      match parent.value {
        case Atom(_) => return Trap;
        case Box(c) =>
          match c.body {
            case DictBody(m) =>
              assert leaf !in m by { WalkLast(tree, Tokens(entry)); }
              PutKey(c, leaf, v, r, tv, own);
            case ArrayBody(xs) =>
              var index := ReadIndex(leaf);
              if index < 0 || index > |xs| {
                return Trap;
              }
              InsertItem(c, index, v, r, tv, own);
          }
          rep := Done;
      }
    }

    /** A reference taken before the destination was created still stands for the source afterwards. */
    lemma SourceStays(h0: Heap, t0: Plist, src: string, dst: string, entry: Value)
      requires Valid() && GrownHeap(h0, Snapshot(nodes)) && tree == Create(t0, Tokens(dst))
      requires RouteOf(t0, Tokens(src)).Some? && Reach(h0, root, RouteOf(t0, Tokens(src)).value) == Some(entry)
      ensures Walk(t0, Tokens(src)).Some? && Walk(tree, Tokens(src)).Some?
      ensures Tree(Snapshot(nodes), entry, Walk(tree, Tokens(src)).value)
    {
      var s := RouteOf(t0, Tokens(src)).value;
      WalkIsGet(t0, Tokens(src));
      CreateKeepsSource(t0, Tokens(dst), Tokens(src));
      ReachGrown(h0, Snapshot(nodes), root, s);
      ReachTree(Snapshot(nodes), root, tree, s);
      WalkIsGet(tree, Tokens(src));
    }

    /** The copy lives in containers that did not exist before, so no later edit shows through. */
    method CopyEntry(src: string, dst: string) returns (rep: Report)
      requires Valid()
      modifies `nodes, `tree, nodes
      ensures Valid() && fresh(nodes - old(nodes))
      ensures Effect(tree, rep) == CopyEffect(old(tree), src, dst)
    {
      var above, entry, name := Resolve(src, false);
      ParentIs(src, above, entry, name);
      ghost var h0, t0 := Snapshot(nodes), tree;
      var parent, existing, leaf := Resolve(dst, true);
      ParentIs(dst, parent, existing, leaf);
      if entry.None? {
        return NoEntry;
      }
      if existing.Some? {
        return Exists;
      }
      SourceStays(h0, t0, src, dst, entry.value);
      ghost var tv := Walk(tree, Tokens(src)).value;
      var v, own := DeepCopy(entry.value, nodes, tv);
      rep := CopyToParent(dst, parent, existing, leaf, v, tv, own);
    }

    method ImportToParent(entry: string, parent: Option<Value>, existing: Option<Value>, leaf: string,
                          v: Value, ghost tv: Plist, ghost own: set<Container>) returns (rep: Report)
      requires Valid() && Resolved(entry, parent, existing, leaf)
      requires own !! nodes && Tree(Snapshot(own), v, tv)
      modifies `nodes, `tree, nodes
      ensures Valid() && nodes <= old(nodes) + own
      ensures Effect(tree, rep) == ImportUnder(old(tree), Tokens(entry), tv)
    {
      ParentIs(entry, parent, existing, leaf);
      if parent.None? {
        return NoEntry;
      }
      ghost var r := RouteOf(tree, Front(Tokens(entry))).value;
      match parent.value {
        case Atom(_) => return Ignored;
        case Box(c) =>
          match c.body {
            case DictBody(m) => PutKey(c, leaf, v, r, tv, own);
            case ArrayBody(xs) =>
              var index := ReadIndex(leaf);
              if index < 0 {
                index := 0;
              }
              if index >= |xs| {
                ghost var items := Get(tree, r).value.items;
                assert InsertAt(items, |items|, tv) == items + [tv];
                InsertItem(c, |xs|, v, r, tv, own);
              } else {
                PutItem(c, index, v, r, tv, own);
              }
          }
          rep := Done;
      }
    }

    /** `file` is what loading delivered: nothing, or a value in containers of its own. */
    method ImportFile(entry: string, file: Option<Value>, ghost own: set<Container>, ghost ft: Plist)
        returns (rep: Report)
      requires Valid() && own !! nodes && (file.Some? ==> Tree(Snapshot(own), file.value, ft))
      modifies `nodes, `tree, nodes
      ensures Valid() && fresh(nodes - old(nodes) - own)
      ensures Effect(tree, rep) == ImportEffect(old(tree), if file.Some? then Some(ft) else None, entry)
    {
      if file.None? {
        return NotLoaded;
      }
      var parent, existing, leaf := Resolve(entry, true);
      rep := ImportToParent(entry, parent, existing, leaf, file.value, ft, own);
    }

    /** One `CFDictionarySetValue` out of a loaded dictionary. */
    method MergeKey(c: Container, m: map<string, Value>, k: string, ghost r: Route,
                    ghost n: map<string, Plist>, ghost own: set<Container>, ghost x: Heap)
      requires Valid() && Get(tree, r).Some? && Reach(Snapshot(nodes), root, r) == Some(Box(c))
      requires Get(tree, r).value.Dict? && x == Snapshot(own) && c !in own
      requires Forest(x, DictBody(m), Dict(n)) && k in n && Foot(x, m[k], n[k]) !! nodes
      modifies c, `nodes, `tree
      ensures Valid() && Reach(Snapshot(nodes), root, r) == Some(Box(c)) && x == Snapshot(own)
      ensures nodes == old(nodes) + Foot(x, m[k], n[k]) <= old(nodes) + own
      ensures tree == Put(old(tree), r, Dict(old(Get(tree, r).value.entries)[k := n[k]]))
    {
      KeysApart(x, m, n, k, k);
      Alone(own, m[k], n[k]);
      PutKey(c, k, m[k], r, n[k], Foot(x, m[k], n[k]));
    }

    /** The loop over the keys of a loaded dictionary. */
    method MergeKeys(c: Container, m: map<string, Value>, order: seq<string>, ghost r: Route,
                     ghost n: map<string, Plist>, ghost own: set<Container>)
      requires Valid() && Get(tree, r).Some? && Reach(Snapshot(nodes), root, r) == Some(Box(c))
      requires Get(tree, r).value.Dict? && own !! nodes && Forest(Snapshot(own), DictBody(m), Dict(n))
      requires Enumerates(order, n)
      modifies c, `nodes, `tree
      ensures Valid() && nodes <= old(nodes) + own
      ensures tree == Put(old(tree), r, Dict(old(Get(tree, r).value.entries) + n))
    {
      ghost var t0, d, x := tree, Get(tree, r).value.entries, Snapshot(own);
      ReachTree(Snapshot(nodes), root, tree, r);
      PutGet(tree, r);
      ListedNone(d, n, order);
      assert forall k | k in n :: Foot(x, m[k], n[k]) <= x.Keys;
      for i := 0 to |order|
        invariant Valid() && nodes <= old(nodes) + own && Reach(Snapshot(nodes), root, r) == Some(Box(c))
        invariant tree == Put(t0, r, Dict(d + Listed(n, order, i)))
        invariant x == Snapshot(own)
        invariant forall k | k in n && k !in order[..i] :: Foot(x, m[k], n[k]) !! nodes
      {
        MergedNext(t0, r, d, n, order, i);
        StillApart(x, m, n, order, i, nodes);
        MergeKey(c, m, order[i], r, n, own, x);
      }
      ListedAll(n, order);
    }

    /** Merging into an array: append, insert before the last item, or append one value. */
    method MergeIntoArray(c: Container, file: Value, order: seq<string>, ghost r: Route, ghost own: set<Container>,
        ghost ft: Plist)
      returns (rep: Report)
      requires Valid() && Get(tree, r).Some? && Reach(Snapshot(nodes), root, r) == Some(Box(c))
      requires Get(tree, r).value.Array? && c in nodes && c.body.ArrayBody?
      requires own !! nodes && Tree(Snapshot(own), file, ft) && OrdersKeys(order, Some(ft))
      modifies c, `nodes, `tree
      ensures Valid() && nodes <= old(nodes) + own
      ensures var e := MergeInto(old(Get(tree, r).value), ft, order);
              tree == Put(old(tree), r, e.tree) && rep == e.report
    {
      ReachTree(Snapshot(nodes), root, tree, r);
      ghost var xs := Get(tree, r).value.items;
      var count := |c.body.items|;
      rep := Done;
      match file {
        case Atom(_) =>
          assert InsertAt(xs, |xs|, ft) == xs + [ft];
          InsertItem(c, count, file, r, ft, own);
        case Box(f) =>
          match f.body {
            case ArrayBody(ys) =>
              assert Spliced(xs, |xs|, ft.items) == xs + ft.items;
              SpliceItems(c, count, ys, r, ft.items, own);
            case DictBody(m) =>
              if count == 0 {
                PutGet(tree, r);
                return Trap;
              }
              OrderedForest(Snapshot(own), m, ft.entries, order);
              SpliceItems(c, count - 1, InOrder(m, order), r, InOrder(ft.entries, order), own);
          }
      }
    }

    method MergeIntoDict(c: Container, file: Value, order: seq<string>, ghost r: Route, ghost own: set<Container>,
        ghost ft: Plist)
      returns (rep: Report)
      requires Valid() && Get(tree, r).Some? && Reach(Snapshot(nodes), root, r) == Some(Box(c))
      requires Get(tree, r).value.Dict?
      requires own !! nodes && Tree(Snapshot(own), file, ft) && OrdersKeys(order, Some(ft))
      modifies c, `nodes, `tree
      ensures Valid() && nodes <= old(nodes) + own
      ensures var e := MergeInto(old(Get(tree, r).value), ft, order);
              tree == Put(old(tree), r, e.tree) && rep == e.report
    {
      rep := Done;
      match file {
        case Atom(_) => PutKey(c, "", file, r, ft, own);
        case Box(f) =>
          match f.body {
            case ArrayBody(_) =>
              PutGet(tree, r);
              rep := ArrayIntoDict;
            case DictBody(m) => MergeKeys(c, m, order, r, ft.entries, own);
          }
      }
    }

    /** Merging into the value a path leads to. */
    method MergeIntoValue(d: Value, file: Value, order: seq<string>, ghost toks: seq<string>,
        ghost own: set<Container>, ghost ft: Plist)
      returns (rep: Report)
      requires Valid() && RouteOf(tree, toks).Some?
               && Reach(Snapshot(nodes), root, RouteOf(tree, toks).value) == Some(d)
      requires own !! nodes && Tree(Snapshot(own), file, ft) && OrdersKeys(order, Some(ft))
      modifies `nodes, `tree, nodes
      ensures Valid() && nodes <= old(nodes) + own
      ensures Effect(tree, rep) == MergeAt(old(tree), toks, ft, order)
    {
      ghost var r := RouteOf(tree, toks).value;
      WalkIsGet(tree, toks);
      ReachTree(Snapshot(nodes), root, tree, r);
      match d {
        case Atom(_) =>
          PutGet(tree, r);
          rep := NotContainer;
        case Box(c) =>
          if c.body.ArrayBody? {
            rep := MergeIntoArray(c, file, order, r, own, ft);
          } else {
            rep := MergeIntoDict(c, file, order, r, own, ft);
          }
      }
    }

    method MergeFile(dest: Option<string>, file: Option<Value>, order: seq<string>, ghost own: set<Container>,
        ghost ft: Plist)
      returns (rep: Report)
      requires Valid() && own !! nodes
               && (file.Some? ==> Tree(Snapshot(own), file.value, ft) && OrdersKeys(order, Some(ft)))
      modifies `nodes, `tree, nodes
      ensures Valid() && fresh(nodes - old(nodes) - own)
      ensures Effect(tree, rep) == MergeEffect(old(tree), if file.Some? then Some(ft) else None, dest, order)
    {
      if file.None? {
        return NotLoaded;
      }
      if dest.Some? && dest.value != "" {
        var parent, existing, leaf := Resolve(dest.value, true);
        WalkIsGet(tree, Tokens(dest.value));
        if existing.None? {
          return NoEntry;
        }
        rep := MergeIntoValue(existing.value, file.value, order, Tokens(dest.value), own, ft);
      } else {
        rep := MergeIntoValue(root, file.value, order, [], own, ft);
      }
    }

    /** Loading as the program sees it: nothing, or the file's contents in fresh containers. */
    method Load(file: Option<Plist>) returns (v: Option<Value>, ghost own: set<Container>)
      ensures fresh(own) && (v.Some? <==> file.Some?)
      ensures v.Some? ==> Tree(Snapshot(own), v.value, file.value)
    {
      if file.None? {
        return None, {};
      }
      var w, made := Build(file.value);
      v, own := Some(w), made;
    }

    method RevertToFile(file: Option<Plist>)
      modifies this
      ensures Valid() && fresh(nodes)
      ensures tree == if file.Some? then file.value else Dict(map[])
    {
      var v, own := Load(file);
      if v.Some? {
        root, nodes, tree := v.value, own, file.value;
      } else {
        var c := new Container(DictBody(map[]));
        root, nodes, tree := Box(c), {c}, Dict(map[]);
      }
    }

    /** The commands that read no file. */
    method Edit(c: Libc, cmd: Command) returns (rep: Report)
      requires Valid() && (cmd.SetValue? || cmd.Add? || cmd.Copy? || cmd.Delete?)
      modifies `nodes, `tree, nodes
      ensures Valid() && fresh(nodes - old(nodes))
      ensures Effect(tree, rep) == CommandEffect(c, old(tree), cmd, None, [])
    {
      match cmd {
        case SetValue(entry, text) => rep := SetEntry(c, entry, text);
        case Add(entry, ty, text) => rep := AddEntry(c, entry, ty, text);
        case Copy(src, dst) => rep := CopyEntry(src, dst);
        case Delete(entry) => rep := DeleteEntry(entry);
      }
    }

    /** One command line: it has the effect its text says, and the containers form a tree afterwards. */
    method RunCommand(c: Libc, q: Request) returns (rep: Report)
      requires Valid() && Answered(q)
      modifies this, nodes
      ensures Valid() && fresh(nodes - old(nodes))
      ensures Effect(tree, rep) == LineEffect(c, old(tree), q)
    {
      var cmd := ReadLine(q.line);
      match cmd {
        case Exit => rep := Ended;
        case Revert =>
          RevertToFile(q.file);
          rep := Done;
        case SetValue(_, _) => rep := Edit(c, cmd);
        case Add(_, _, _) => rep := Edit(c, cmd);
        case Copy(_, _) => rep := Edit(c, cmd);
        case Delete(_) => rep := Edit(c, cmd);
        case Merge(_, dest) =>
          var file, own := Load(q.file);
          rep := MergeFile(dest, file, q.order, own, if q.file.Some? then q.file.value else tree);
        case Import(entry, _) =>
          var file, own := Load(q.file);
          rep := ImportFile(entry, file, own, if q.file.Some? then q.file.value else tree);
        case _ => rep := Ignored;
      }
    }

    /** Every session, whatever its lines: the property list stays a tree and ends as the text says. */
    method Run(c: Libc, qs: seq<Request>) returns (rep: Report)
      requires Valid() && forall i | 0 <= i < |qs| :: Answered(qs[i])
      modifies this, nodes
      ensures Valid() && fresh(nodes - old(nodes))
      ensures Effect(tree, rep) == RunEffect(c, old(tree), qs)
    {
      var i := 0;
      assert qs[0..] == qs;
      while i < |qs|
        invariant i <= |qs| && Valid() && fresh(nodes - old(nodes))
        invariant RunEffect(c, tree, qs[i..]) == RunEffect(c, old(tree), qs)
      {
        assert qs[i..][1..] == qs[i + 1..] && qs[i..][0] == qs[i];
        rep := RunCommand(c, qs[i]);
        if rep == Ended || rep == Trap {
          return;
        }
        i := i + 1;
      }
      rep := Done;
    }
  }

  lemma {:induction false} ConsumedIs(t: Plist, toks: seq<string>, n: nat)
    requires 0 < n <= |toks| && Walk(t, toks[..n - 1]).Some?
    requires n == |toks| || Walk(t, toks[..n]).None?
    ensures Consumed(t, toks) == n
    decreases n
  {
    if n > 1 {
      assert toks[..n - 1][1..] == toks[1..][..n - 2];
      assert toks[..n][1..] == toks[1..][..n - 1];
      ConsumedIs(Step(t, toks[0]).value, toks[1..], n - 1);
    } else {
      match Step(t, toks[0]) {
        case None =>
        case Some(u) => assert Walk(t, toks[..1]) == Walk(u, toks[..1][1..]) == Some(u);
      }
    }
  }
}
