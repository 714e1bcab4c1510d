/**
 Mutable containers and the property list they hold.  `Tree` says that the containers reachable
 from a value form a tree: no container sits in two slots and none is reached from itself.  One
 lemma, `EditAt`, justifies every in-place change the editor makes.
 */
module PlistHeap {
  import opened Options
  import opened PlistTree

  /** A mutable CoreFoundation dictionary or array. */
  class Container {
    var body: Body

    constructor (b: Body)
      ensures body == b
    {
      body := b;
    }
  }

  /** A reference as the program holds it: scalars are immutable, containers are shared by address. */
  datatype Value = Atom(scalar: Scalar) | Box(container: Container)

  datatype Body = DictBody(entries: map<string, Value>) | ArrayBody(items: seq<Value>)

  type Heap = map<Container, Body>

  ghost function Snapshot(nodes: set<Container>): Heap
    reads nodes
  {
    map c | c in nodes :: c.body
  }

  predicate HasKid(b: Body, s: Slot) {
    match b
    case DictBody(m) => s.Key? && s.key in m
    case ArrayBody(xs) => s.Index? && 0 <= s.index < |xs|
  }

  function Kid(b: Body, s: Slot): Value
    requires HasKid(b, s)
  {
    if b.DictBody? then b.entries[s.key] else b.items[s.index]
  }

  ghost predicate SameSlots(b: Body, t: Plist) {
    || (b.DictBody? && t.Dict? && b.entries.Keys == t.entries.Keys)
    || (b.ArrayBody? && t.Array? && |b.items| == |t.items|)
  }

  /** The containers through which `v` holds `t`. */
  ghost function Foot(h: Heap, v: Value, t: Plist): set<Container>
    decreases t
  {
    if v.Box? && v.container in h then
      {v.container} +
      set d | d in h && exists s ::
                Has(t, s) && HasKid(h[v.container], s) && d in Foot(h, Kid(h[v.container], s), At(t, s))
    else {}
  }

  /** `v` holds exactly `t`, and the containers it holds it through form a tree. */
  ghost predicate Tree(h: Heap, v: Value, t: Plist)
    decreases t
  {
    match v
    case Atom(a) => t == Leaf(a)
    case Box(c) =>
      && c in h
      && SameSlots(h[c], t)
      && (forall s | Has(t, s) :: Tree(h, Kid(h[c], s), At(t, s)) && c !in Foot(h, Kid(h[c], s), At(t, s)))
      && (forall s, s' | Has(t, s) && Has(t, s') && s != s' ::
            Foot(h, Kid(h[c], s), At(t, s)) !! Foot(h, Kid(h[c], s'), At(t, s')))
  }

  /** The children of one container, without the container itself. */
  ghost predicate Forest(h: Heap, b: Body, t: Plist) {
    && SameSlots(b, t)
    && (forall s | Has(t, s) :: Tree(h, Kid(b, s), At(t, s)))
    && (forall s, s' | Has(t, s) && Has(t, s') && s != s' ::
          Foot(h, Kid(b, s), At(t, s)) !! Foot(h, Kid(b, s'), At(t, s')))
  }

  ghost predicate InForest(h: Heap, b: Body, t: Plist, d: Container)
    requires SameSlots(b, t)
  {
    exists s :: Has(t, s) && d in Foot(h, Kid(b, s), At(t, s))
  }

  lemma FootInHeap(h: Heap, v: Value, t: Plist)
    ensures Foot(h, v, t) <= h.Keys
  {
  }

  lemma FootOfBox(h: Heap, c: Container, t: Plist)
    requires c in h && SameSlots(h[c], t)
    ensures forall d :: d in Foot(h, Box(c), t) <==> d == c || InForest(h, h[c], t, d)
  {
    forall d, s | Has(t, s) && d in Foot(h, Kid(h[c], s), At(t, s))
      ensures d in Foot(h, Box(c), t)
    {
      FootInHeap(h, Kid(h[c], s), At(t, s));
    }
  }

  lemma KidFoot(h: Heap, c: Container, t: Plist, s: Slot)
    requires c in h && SameSlots(h[c], t) && Has(t, s)
    ensures Foot(h, Kid(h[c], s), At(t, s)) <= Foot(h, Box(c), t)
  {
    FootInHeap(h, Kid(h[c], s), At(t, s));
  }

  /** What a value holds depends only on the containers of its own footprint. */
  lemma {:induction false} Frame(h: Heap, h': Heap, v: Value, t: Plist)
    requires Tree(h, v, t)
    requires forall c | c in Foot(h, v, t) :: c in h' && h'[c] == h[c]
    ensures Tree(h', v, t) && Foot(h', v, t) == Foot(h, v, t)
    decreases t
  {
    if v.Box? {
      var b := h[v.container];
      FootOfBox(h, v.container, t);
      forall s | Has(t, s)
        ensures Tree(h', Kid(b, s), At(t, s)) && Foot(h', Kid(b, s), At(t, s)) == Foot(h, Kid(b, s), At(t, s))
      {
        Frame(h, h', Kid(b, s), At(t, s));
      }
      FootOfBox(h', v.container, t);
    }
  }

  // ---- Reaching a container -----------------------------------------------------------------------

  /** Follow slots from container to container. */
  function Reach(h: Heap, v: Value, r: Route): Option<Value>
    decreases |r|
  {
    if r == [] then Some(v)
    else if v.Box? && v.container in h && HasKid(h[v.container], r[0]) then
      Reach(h, Kid(h[v.container], r[0]), r[1..])
    else None
  }

  lemma {:induction false} ReachConcat(h: Heap, v: Value, r: Route, q: Route)
    ensures Reach(h, v, r + q) == (match Reach(h, v, r) case None => None case Some(w) => Reach(h, w, q))
    decreases |r|
  {
    if r == [] {
      assert r + q == q;
    } else if v.Box? && v.container in h && HasKid(h[v.container], r[0]) {
      assert (r + q)[1..] == r[1..] + q;
      ReachConcat(h, Kid(h[v.container], r[0]), r[1..], q);
    }
  }

  /** Following slots in the heap and in the tree leads to corresponding places. */
  lemma {:induction false} ReachTree(h: Heap, v: Value, t: Plist, r: Route)
    requires Tree(h, v, t)
    ensures Reach(h, v, r).Some? <==> Get(t, r).Some?
    ensures Get(t, r).Some? ==>
              var w, u := Reach(h, v, r).value, Get(t, r).value;
              Tree(h, w, u) && Foot(h, w, u) <= Foot(h, v, t)
    decreases |r|
  {
    if r != [] && v.Box? {
      FootOfBox(h, v.container, t);
      if Has(t, r[0]) {
        ReachTree(h, Kid(h[v.container], r[0]), At(t, r[0]), r[1..]);
      }
    }
  }

  lemma InKid(h: Heap, c: Container, t: Plist, r: Route)
    requires Tree(h, Box(c), t) && r != []
    requires Reach(h, Box(c), r).Some? && Reach(h, Box(c), r).value.Box?
    ensures Has(t, r[0]) && HasKid(h[c], r[0])
    ensures Reach(h, Box(c), r).value.container in Foot(h, Kid(h[c], r[0]), At(t, r[0]))
  {
    ReachTree(h, Kid(h[c], r[0]), At(t, r[0]), r[1..]);
  }

  /** No sharing and no cycle: two different routes never end at the same container. */
  lemma {:induction false} OneSlotEach(h: Heap, v: Value, t: Plist, r: Route, q: Route)
    requires Tree(h, v, t)
    requires Reach(h, v, r).Some? && Reach(h, v, r).value.Box? && Reach(h, v, r) == Reach(h, v, q)
    ensures r == q
    decreases |r|
  {
    var d := Reach(h, v, r).value.container;
    if r == [] || q == [] {
      var p := if r == [] then q else r;
      if p != [] {
        InKid(h, d, t, p);
        assert false;
      }
    } else {
      InKid(h, v.container, t, r);
      InKid(h, v.container, t, q);
      OneSlotEach(h, Kid(h[v.container], r[0]), At(t, r[0]), r[1..], q[1..]);
      assert r == [r[0]] + r[1..] && q == [q[0]] + q[1..];
    }
  }

  /** The way to a container does not lead through it, so changing it leaves the way open. */
  lemma {:induction false} ReachStays(h: Heap, h': Heap, v: Value, t: Plist, r: Route, c: Container)
    requires Tree(h, v, t) && Reach(h, v, r) == Some(Box(c))
    requires forall d | d in h && d != c :: d in h' && h'[d] == h[d]
    ensures Reach(h', v, r) == Some(Box(c))
    decreases |r|
  {
    if r != [] {
      InKid(h, v.container, t, r);
      ReachStays(h, h', Kid(h[v.container], r[0]), At(t, r[0]), r[1..], c);
    }
  }

  /** Containers that only gain keys keep every old route leading where it led. */
  predicate Grown(b: Body, b': Body) {
    || b' == b
    || (b.DictBody? && b'.DictBody? && forall k | k in b.entries :: k in b'.entries && b'.entries[k] == b.entries[k])
  }

  ghost predicate GrownHeap(h: Heap, h': Heap) {
    forall c | c in h :: c in h' && Grown(h[c], h'[c])
  }

  lemma GrownTwice(h: Heap, h': Heap, h'': Heap)
    requires GrownHeap(h, h') && GrownHeap(h', h'')
    ensures GrownHeap(h, h'')
  {
  }

  lemma {:induction false} ReachGrown(h: Heap, h': Heap, v: Value, r: Route)
    requires GrownHeap(h, h') && Reach(h, v, r).Some?
    ensures Reach(h', v, r) == Reach(h, v, r)
    decreases |r|
  {
    if r != [] {
      ReachGrown(h, h', Kid(h[v.container], r[0]), r[1..]);
    }
  }

  // ---- Changing one container in place --------------------------------------------------------------

  /** One child of an untouched container now holds `u`; its siblings are as they were. */
  ghost predicate KidSwapped(h: Heap, h': Heap, c: Container, t: Plist, s: Slot, u: Plist)
    requires Tree(h, Box(c), t) && Has(t, s)
  {
    && c in h' && h'[c] == h[c]
    && Tree(h', Kid(h[c], s), u) && c !in Foot(h', Kid(h[c], s), u)
    && (forall o | Has(t, o) && o != s ::
          && Foot(h', Kid(h[c], s), u) !! Foot(h, Kid(h[c], o), At(t, o))
          && forall d | d in Foot(h, Kid(h[c], o), At(t, o)) :: d in h' && h'[d] == h[d])
  }

  lemma SwapKid(h: Heap, h': Heap, c: Container, t: Plist, s: Slot, u: Plist)
    requires Tree(h, Box(c), t) && Has(t, s) && KidSwapped(h, h', c, t, s, u)
    ensures Tree(h', Box(c), With(t, s, u))
    ensures forall o | Has(t, o) && o != s :: Foot(h', Kid(h[c], o), At(t, o)) == Foot(h, Kid(h[c], o), At(t, o))
  {
    var b, t' := h[c], With(t, s, u);
    assert At(t', s) == u && forall o :: Has(t', o) <==> Has(t, o);
    forall o | Has(t, o) && o != s
      ensures Tree(h', Kid(b, o), At(t, o)) && Foot(h', Kid(b, o), At(t, o)) == Foot(h, Kid(b, o), At(t, o))
      ensures At(t', o) == At(t, o)
    {
      Frame(h, h', Kid(b, o), At(t, o));
    }
  }

  lemma SwapKidFoot(h: Heap, h': Heap, c: Container, t: Plist, s: Slot, u: Plist)
    requires Tree(h, Box(c), t) && Has(t, s) && KidSwapped(h, h', c, t, s, u)
    ensures Foot(h', Box(c), With(t, s, u)) <=
            Foot(h, Box(c), t) - Foot(h, Kid(h[c], s), At(t, s)) + Foot(h', Kid(h[c], s), u)
  {
    var b, t' := h[c], With(t, s, u);
    SwapKid(h, h', c, t, s, u);
    FootOfBox(h, c, t);
    FootOfBox(h', c, t');
    forall d | d in Foot(h', Box(c), t')
      ensures d in Foot(h, Box(c), t) - Foot(h, Kid(b, s), At(t, s)) + Foot(h', Kid(b, s), u)
    {
      if d != c {
        var o :| Has(t', o) && d in Foot(h', Kid(b, o), At(t', o));
        if o != s {
          assert At(t', o) == At(t, o);
          assert InForest(h, b, t, d);
        }
      }
    }
  }

  /** One level of `UpdateBelow`: the change stays inside the one child it happens in. */
  lemma LiftSwap(h: Heap, h': Heap, c: Container, t: Plist, s: Slot, u: Plist, gone: set<Container>,
      come: set<Container>)
    requires Tree(h, Box(c), t) && Has(t, s) && Tree(h', Kid(h[c], s), u)
    requires gone <= Foot(h, Kid(h[c], s), At(t, s))
    requires Foot(h', Kid(h[c], s), u) <= Foot(h, Kid(h[c], s), At(t, s)) - gone + come
    requires forall d | d in Foot(h, Box(c), t) - gone :: d in h' && h'[d] == h[d] && d !in come
    ensures KidSwapped(h, h', c, t, s, u)
  {
    FootOfBox(h, c, t);
    assert c in Foot(h, Box(c), t) - gone;
    forall o, d | Has(t, o) && o != s && d in Foot(h, Kid(h[c], o), At(t, o))
      ensures d in Foot(h, Box(c), t) - gone
    {
      assert InForest(h, h[c], t, d);
    }
  }

  lemma LiftSets(all: set<Container>, was: set<Container>, kid: set<Container>, kid': set<Container>,
                 gone: set<Container>, come: set<Container>)
    requires all <= was - kid + kid' && kid' <= kid - gone + come && kid <= was && gone <= kid
    ensures all <= was - gone + come
  {
  }

  lemma LiftFoot(h: Heap, h': Heap, c: Container, t: Plist, s: Slot, u: Plist, gone: set<Container>,
                 come: set<Container>)
    requires Tree(h, Box(c), t) && Has(t, s) && KidSwapped(h, h', c, t, s, u)
    requires gone <= Foot(h, Kid(h[c], s), At(t, s))
    requires Foot(h', Kid(h[c], s), u) <= Foot(h, Kid(h[c], s), At(t, s)) - gone + come
    ensures Foot(h', Box(c), With(t, s, u)) <= Foot(h, Box(c), t) - gone + come
  {
    SwapKidFoot(h, h', c, t, s, u);
    KidFoot(h, c, t, s);
    LiftSets(Foot(h', Box(c), With(t, s, u)), Foot(h, Box(c), t), Foot(h, Kid(h[c], s), At(t, s)),
             Foot(h', Kid(h[c], s), u), gone, come);
  }

  lemma LiftUpdate(h: Heap, h': Heap, c: Container, t: Plist, s: Slot, u: Plist, gone: set<Container>,
                   come: set<Container>)
    requires Tree(h, Box(c), t) && Has(t, s) && Tree(h', Kid(h[c], s), u)
    requires gone <= Foot(h, Kid(h[c], s), At(t, s))
    requires Foot(h', Kid(h[c], s), u) <= Foot(h, Kid(h[c], s), At(t, s)) - gone + come
    requires forall d | d in Foot(h, Box(c), t) - gone :: d in h' && h'[d] == h[d] && d !in come
    ensures Tree(h', Box(c), With(t, s, u))
    ensures Foot(h', Box(c), With(t, s, u)) <= Foot(h, Box(c), t) - gone + come
  {
    LiftSwap(h, h', c, t, s, u, gone, come);
    SwapKid(h, h', c, t, s, u);
    LiftFoot(h, h', c, t, s, u, gone, come);
  }

  /**
   Replacing what hangs below a container: if the container itself now holds `u` and nothing else
   in the tree was touched, the whole value holds the tree with `u` put there.
   */
  lemma {:induction false} UpdateBelow(h: Heap, h': Heap, v: Value, t: Plist, r: Route, w: Value, sub: Plist, u: Plist)
    requires Tree(h, v, t) && Reach(h, v, r) == Some(w) && Get(t, r) == Some(sub)
    requires w.Box? && Tree(h', w, u)
    requires forall c | c in Foot(h, v, t) - Foot(h, w, sub) :: c in h' && h'[c] == h[c] && c !in Foot(h', w, u)
    ensures Tree(h', v, Put(t, r, u))
    ensures Foot(h', v, Put(t, r, u)) <= Foot(h, v, t) - Foot(h, w, sub) + Foot(h', w, u)
    decreases |r|
  {
    if r != [] {
      var c, s := v.container, r[0];
      var kid, t0 := Kid(h[c], s), At(t, s);
      var gone, come := Foot(h, w, sub), Foot(h', w, u);
      ReachTree(h, kid, t0, r[1..]);
      KidFoot(h, c, t, s);
      UpdateBelow(h, h', kid, t0, r[1..], w, sub, u);
      LiftUpdate(h, h', c, t, s, Put(t0, r[1..], u), gone, come);
    }
  }

  /**
   Where each child of a changed body comes from: an old slot, or nowhere when the child is new.
   */
  ghost predicate Moved(b: Body, t: Plist, b': Body, t': Plist, from: Slot -> Option<Slot>)
    requires SameSlots(b, t) && SameSlots(b', t')
  {
    && (forall s | Has(t', s) && from(s).Some? ::
          Has(t, from(s).value) && Kid(b', s) == Kid(b, from(s).value) && At(t', s) == At(t, from(s).value))
    && (forall s, s' | Has(t', s) && Has(t', s') && s != s' && from(s).Some? :: from(s) != from(s'))
  }

  /** The new children are trees of their own, disjoint from each other and from `old`. */
  ghost predicate NewKids(h': Heap, b': Body, t': Plist, from: Slot -> Option<Slot>, taken: set<Container>)
    requires SameSlots(b', t')
  {
    && (forall s | Has(t', s) && from(s).None? ::
          Tree(h', Kid(b', s), At(t', s)) && Foot(h', Kid(b', s), At(t', s)) !! taken)
    && (forall s, s' | Has(t', s) && Has(t', s') && s != s' && from(s).None? && from(s').None? ::
          Foot(h', Kid(b', s), At(t', s)) !! Foot(h', Kid(b', s'), At(t', s')))
  }

  lemma Rehang(h: Heap, h': Heap, b: Body, t: Plist, b': Body, t': Plist, from: Slot -> Option<Slot>,
      taken: set<Container>)
    requires Forest(h, b, t) && SameSlots(b', t')
    requires forall d | d in h && InForest(h, b, t, d) :: d in h' && h'[d] == h[d] && d in taken
    requires Moved(b, t, b', t', from) && NewKids(h', b', t', from, taken)
    ensures Forest(h', b', t')
    ensures forall d | InForest(h', b', t', d) :: (d in h && InForest(h, b, t, d)) || d !in taken
  {
    forall s | Has(t', s)
      ensures Tree(h', Kid(b', s), At(t', s))
      ensures from(s).Some? ==> Foot(h', Kid(b', s), At(t', s)) == Foot(h, Kid(b, from(s).value), At(t, from(s).value))
      ensures from(s).Some? ==> Foot(h', Kid(b', s), At(t', s)) <= taken
    {
      if from(s).Some? {
        FootInHeap(h, Kid(b, from(s).value), At(t, from(s).value));
        Frame(h, h', Kid(b, from(s).value), At(t, from(s).value));
      }
    }
    forall d, s | Has(t', s) && d in Foot(h', Kid(b', s), At(t', s))
      ensures (d in h && InForest(h, b, t, d)) || d !in taken
    {
      if from(s).Some? {
        FootInHeap(h, Kid(b, from(s).value), At(t, from(s).value));
      }
    }
  }

  /**
   Every in-place edit: the container reached by `r` gets a new body, its children moved as `from`
   says and any new ones brought in separately; nothing else in the tree changes.
   */
  lemma EditAt(h: Heap, h': Heap, v: Value, t: Plist, r: Route, u: Plist, from: Slot -> Option<Slot>)
    requires Tree(h, v, t) && Get(t, r).Some? && Reach(h, v, r).Some? && Reach(h, v, r).value.Box?
    requires var c := Reach(h, v, r).value.container;
             && c in h && c in h' && SameSlots(h[c], Get(t, r).value) && SameSlots(h'[c], u)
             && (forall d | d in Foot(h, v, t) && d != c :: d in h' && h'[d] == h[d])
             && Moved(h[c], Get(t, r).value, h'[c], u, from)
             && NewKids(h', h'[c], u, from, Foot(h, v, t))
    ensures Tree(h', v, Put(t, r, u))
  {
    var w, sub := Reach(h, v, r).value, Get(t, r).value;
    var c := w.container;
    ReachTree(h, v, t, r);
    FootOfBox(h, c, sub);
    Rehang(h, h', h[c], sub, h'[c], u, from, Foot(h, v, t));
    assert !InForest(h, h[c], sub, c);
    assert Tree(h', w, u);
    FootOfBox(h', c, u);
    UpdateBelow(h, h', v, t, r, w, sub, u);
  }
}
