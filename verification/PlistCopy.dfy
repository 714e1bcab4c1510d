/** Deep copies: reading a value out of its containers, and building fresh containers for one. */
module PlistCopy {
  import opened Options
  import opened PlistTree
  import opened PlistHeap

  /** The property list a value holds, read out of the containers. */
  function ReadValue(v: Value, ghost h: Heap, ghost t: Plist): (r: Plist)
    requires Tree(h, v, t) && forall c | c in h :: c.body == h[c]
    reads h.Keys
    ensures r == t
    decreases t
  {
    match v
    case Atom(a) => Leaf(a)
    case Box(c) =>
      match c.body
      case DictBody(m) =>
        assert forall k | k in m :: Has(t, Key(k));
        Dict(map k | k in m :: ReadValue(Kid(c.body, Key(k)), h, At(t, Key(k))))
      case ArrayBody(xs) =>
        assert forall i | 0 <= i < |xs| :: Has(t, Index(i));
        Array(seq(|xs|,
                  i requires 0 <= i < |xs| && Tree(h, v, t) && c.body == ArrayBody(xs)
                      && forall d | d in h :: d.body == h[d]
                    reads h.Keys
                  => ReadValue(xs[i], h, At(t, Index(i)))))
  }

  ghost function Restrict<V>(m: map<string, V>, ks: set<string>): map<string, V> {
    map k | k in m && k in ks :: m[k]
  }

  /** One more finished child under a key. */
  lemma ForestPut(h: Heap, h': Heap, m: map<string, Value>, d: map<string, Plist>, k: string, v: Value, t: Plist)
    requires Forest(h, DictBody(m), Dict(d)) && k !in m && Tree(h', v, t)
    requires forall c | c in h :: c in h' && h'[c] == h[c] && c !in Foot(h', v, t)
    ensures Forest(h', DictBody(m[k := v]), Dict(d[k := t]))
  {
    var from := s => if s == Key(k) then None else Some(s);
    Rehang(h, h', DictBody(m), Dict(d), DictBody(m[k := v]), Dict(d[k := t]), from, h.Keys);
  }

  lemma ForestPush(h: Heap, h': Heap, xs: seq<Value>, ts: seq<Plist>, v: Value, t: Plist)
    requires Forest(h, ArrayBody(xs), Array(ts)) && Tree(h', v, t)
    requires forall c | c in h :: c in h' && h'[c] == h[c] && c !in Foot(h', v, t)
    ensures Forest(h', ArrayBody(xs + [v]), Array(ts + [t]))
  {
    var from := s => if s == Index(|xs|) then None else Some(s);
    Rehang(h, h', ArrayBody(xs), Array(ts), ArrayBody(xs + [v]), Array(ts + [t]), from, h.Keys);
  }

  /** A container put over finished children. */
  method Wrap(b: Body, ghost t: Plist, ghost own: set<Container>) returns (v: Value, ghost all: set<Container>)
    requires Forest(Snapshot(own), b, t)
    ensures Tree(Snapshot(all), v, t)
    ensures own <= all && fresh(all - own)
  {
    var c := new Container(b);
    v, all := Box(c), own + {c};
    ghost var h, h' := Snapshot(own), Snapshot(all);
    forall s | Has(t, s)
      ensures Tree(h', Kid(b, s), At(t, s)) && Foot(h', Kid(b, s), At(t, s)) == Foot(h, Kid(b, s), At(t, s))
      ensures c !in Foot(h', Kid(b, s), At(t, s))
    {
      FootInHeap(h, Kid(b, s), At(t, s));
      Frame(h, h', Kid(b, s), At(t, s));
    }
  }

  /** Fresh containers holding `t`: what loading a file or copying a subtree allocates. */
  method Build(t: Plist) returns (v: Value, ghost own: set<Container>)
    ensures fresh(own) && Tree(Snapshot(own), v, t)
    decreases t, 1
  {
    match t {
      case Leaf(a) => v, own := Atom(a), {};
      case Dict(m) =>
        var body, made := BuildDict(t);
        v, own := Wrap(body, t, made);
      case Array(ts) =>
        var body, made := BuildArray(t);
        v, own := Wrap(body, t, made);
    }
  }

  method BuildDict(t: Plist) returns (body: Body, ghost own: set<Container>)
    requires t.Dict?
    ensures fresh(own) && Forest(Snapshot(own), body, t)
    decreases t, 0
  {
    var m := t.entries;
    var out: map<string, Value>, todo := map[], m.Keys;
    own := {};
    assert Restrict(m, {}) == map[];
    while todo != {}
      invariant todo <= m.Keys && out.Keys == m.Keys - todo && fresh(own)
      invariant Forest(Snapshot(own), DictBody(out), Dict(Restrict(m, out.Keys)))
      decreases todo
    {
      var k :| k in todo;
      assert Has(t, Key(k)) && At(t, Key(k)) == m[k];
      ghost var h := Snapshot(own);
      var x, more := Build(m[k]);
      ghost var h' := Snapshot(own + more);
      FootInHeap(Snapshot(more), x, m[k]);
      Frame(Snapshot(more), h', x, m[k]);
      ForestPut(h, h', out, Restrict(m, out.Keys), k, x, m[k]);
      assert Restrict(m, out.Keys)[k := m[k]] == Restrict(m, out.Keys + {k});
      own := own + more;
      out := out[k := x];
      todo := todo - {k};
    }
    assert Restrict(m, out.Keys) == m;
    body := DictBody(out);
  }

  method BuildArray(t: Plist) returns (body: Body, ghost own: set<Container>)
    requires t.Array?
    ensures fresh(own) && Forest(Snapshot(own), body, t)
    decreases t, 0
  {
    var ts := t.items;
    var out: seq<Value> := [];
    own := {};
    while |out| < |ts|
      invariant |out| <= |ts| && fresh(own)
      invariant Forest(Snapshot(own), ArrayBody(out), Array(ts[..|out|]))
    {
      var i := |out|;
      assert Has(t, Index(i)) && At(t, Index(i)) == ts[i];
      ghost var h := Snapshot(own);
      var x, more := Build(ts[i]);
      ghost var h' := Snapshot(own + more);
      FootInHeap(Snapshot(more), x, ts[i]);
      Frame(Snapshot(more), h', x, ts[i]);
      ForestPush(h, h', out, ts[..i], x, ts[i]);
      assert ts[..i] + [ts[i]] == ts[..i + 1];
      own := own + more;
      out := out + [x];
    }
    assert ts[..|out|] == ts;
    body := ArrayBody(out);
  }

  /** `CFPropertyListCreateDeepCopy`: the same property list in containers of its own. */
  method DeepCopy(v: Value, ghost nodes: set<Container>, ghost t: Plist) returns (w: Value, ghost own: set<Container>)
    requires Tree(Snapshot(nodes), v, t)
    ensures fresh(own) && Tree(Snapshot(own), w, t)
  {
    var read := ReadValue(v, Snapshot(nodes), t);
    w, own := Build(read);
  }
}
