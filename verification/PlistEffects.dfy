/**
 What each editing command does to a property list, as one function from the tree before to the
 tree after and a report.  A command of the real program mutates containers in place; the methods
 of `PlistEditor` are proved to have exactly these effects.
 */
module PlistEffects {
  import opened Options
  import opened PlistTree
  import opened PlistText
  import opened PlistCommands

  /** How a command ends.  `Trap` stands for a foreign call whose own precondition is broken. */
  datatype Report =
    | Done
    | NotParsed      // the value text was rejected
    | NotLoaded      // the file to merge or import could not be read
    | NoEntry        // "Does Not Exist"
    | Exists         // "Entry Already Exists"
    | CannotAdd      // the parent is no container
    | OnContainer    // "Cannot Perform Set On Containers"
    | ArrayIntoDict  // "Can't Add array Entries to dict"
    | NotContainer   // "Specified Entry Must Be a Container"
    | Ignored        // nothing is done and nothing is said
    | Ended          // the program exits
    | Trap

  datatype Effect = Effect(tree: Plist, report: Report)

  function Front<T>(s: seq<T>): seq<T>
    requires s != []
  {
    s[..|s| - 1]
  }

  function Last<T>(s: seq<T>): T
    requires s != []
  {
    s[|s| - 1]
  }

  /** Rewrite the container that a token path leads to. */
  function Rewrite(t: Plist, toks: seq<string>, u: Plist): Plist {
    match RouteOf(t, toks)
    case None => t
    case Some(r) => Put(t, r, u)
  }

  function InsertAt<T>(s: seq<T>, i: nat, x: T): (r: seq<T>)
    requires i <= |s|
    ensures |r| == |s| + 1
  {
    s[..i] + [x] + s[i..]
  }

  function RemoveAt<T>(s: seq<T>, i: nat): (r: seq<T>)
    requires i < |s|
    ensures |r| == |s| - 1
  {
    s[..i] + s[i + 1..]
  }

  function Clamp(i: int, count: nat): nat {
    if i < 0 then 0 else if i > count then count else i
  }

  /** `CFDictionaryAddValue`: only an absent key is added. */
  function AddKey<V>(m: map<string, V>, k: string, v: V): map<string, V> {
    if k in m then m else m[k := v]
  }

  /** A container with `v` added: inserted at the clamped index, or bound to an absent key. */
  function Filled(p: Plist, leaf: string, v: Plist): Plist {
    match p
    case Array(xs) => Array(InsertAt(xs, Clamp(Atoi(leaf), |xs|), v))
    case Dict(m) => Dict(AddKey(m, leaf, v))
    case Leaf(_) => p
  }

  /** Adding under the parent, once the path to it exists. */
  function AddUnder(t: Plist, toks: seq<string>, v: Plist): Effect
    requires toks != []
  {
    match Walk(t, Front(toks))
    case None => Effect(t, NoEntry)
    case Some(p) =>
      if Walk(t, toks).Some? && !p.Array? then Effect(t, Exists)
      else if p.Leaf? then Effect(t, CannotAdd)
      else Effect(Rewrite(t, Front(toks), Filled(p, Last(toks), v)), Done)
  }

  function AddEffect(t: Plist, entry: string, v: Plist): Effect {
    AddUnder(Create(t, Tokens(entry)), Tokens(entry), v)
  }

  /** The value an Add makes before it looks at the tree. */
  function NewValue(c: Libc, ty: PropertyType, text: string): Option<Plist> {
    if ty == ArrayType then Some(Array([]))
    else if ty == DictType then Some(Dict(map[]))
    else match ParseValue(c, ty, text)
      case None => None
      case Some(v) => Some(Leaf(v))
  }

  function AddEntryEffect(c: Libc, t: Plist, entry: string, ty: PropertyType, text: string): Effect {
    match NewValue(c, ty, text)
    case None => Effect(t, NotParsed)
    case Some(v) => AddEffect(t, entry, v)
  }

  /** Overwrite the scalar that a token path leads to. */
  function WriteEffect(t: Plist, toks: seq<string>, v: Scalar): Effect
    requires toks != [] && Walk(t, toks).Some? && Walk(t, toks).value.Leaf?
  {
    WalkLast(t, toks);
    match Walk(t, Front(toks)).value
    case Dict(m) =>
      Effect(Rewrite(t, Front(toks), Dict(if Last(toks) in m then m[Last(toks) := Leaf(v)] else m)), Done)
    case Array(xs) => Effect(Rewrite(t, Front(toks), Array(xs[Atoi(Last(toks)) := Leaf(v)])), Done)
    case Leaf(_) => Effect(t, Trap)
  }

  function SetEffect(c: Libc, t: Plist, entry: string, text: string): Effect {
    match Walk(t, Tokens(entry))
    case None => Effect(t, NoEntry)
    case Some(was) =>
      if !was.Leaf? then Effect(t, OnContainer)
      else match ParseValue(c, InferType(was), text)
        case None => Effect(t, NotParsed)
        case Some(v) => WriteEffect(t, Tokens(entry), v)
  }

  function DeleteEffect(t: Plist, entry: string): Effect {
    var toks := Tokens(entry);
    if Walk(t, toks).None? then Effect(t, NoEntry)
    else
      WalkLast(t, toks);
      match Walk(t, Front(toks)).value
      case Dict(m) => Effect(Rewrite(t, Front(toks), Dict(m - {Last(toks)})), Done)
      case Array(xs) =>
        var i := Atoi(Last(toks));
        if 0 <= i < |xs| then Effect(Rewrite(t, Front(toks), Array(RemoveAt(xs, i))), Done)
        else Effect(t, Trap)
      case Leaf(_) => Effect(t, Trap)
  }

  /** Putting a copy under a parent where nothing exists yet. */
  function CopyUnder(t: Plist, toks: seq<string>, v: Plist): Effect
    requires toks != []
  {
    match Walk(t, Front(toks))
    case None => Effect(t, Trap)
    case Some(Dict(m)) => Effect(Rewrite(t, Front(toks), Dict(AddKey(m, Last(toks), v))), Done)
    case Some(Array(xs)) =>
      var i := Atoi(Last(toks));
      if 0 <= i <= |xs| then Effect(Rewrite(t, Front(toks), Array(InsertAt(xs, i, v))), Done)
      else Effect(t, Trap)
    case Some(Leaf(_)) => Effect(t, Trap)
  }

  /** The source is looked up first, but copied only after the destination path has been created. */
  function CopyEffect(t: Plist, src: string, dst: string): Effect {
    var s, d := Tokens(src), Tokens(dst);
    var t1 := Create(t, d);
    if Walk(t, s).None? then Effect(t1, NoEntry)
    else if Walk(t1, d).Some? then Effect(t1, Exists)
    else
      CreateKeepsSource(t, d, s);
      CopyUnder(t1, d, Walk(t1, s).value)
  }

  /** The values of a dictionary in the order the foreign enumeration lists its keys. */
  function InOrder<V>(m: map<string, V>, order: seq<string>): (vs: seq<V>)
    requires forall k | k in order :: k in m
    ensures |vs| == |order| && forall i | 0 <= i < |vs| :: vs[i] == m[order[i]]
  {
    seq(|order|, i requires 0 <= i < |order| => m[order[i]])
  }

  ghost predicate Enumerates<V>(order: seq<string>, m: map<string, V>) {
    && (forall k :: k in order <==> k in m)
    && (forall i, j | 0 <= i < j < |order| :: order[i] != order[j])
  }

  /** `Enumerates` for the file's root when that is a dictionary; other roots have no keys. */
  ghost predicate OrdersKeys(order: seq<string>, file: Option<Plist>) {
    file.Some? && file.value.Dict? ==> Enumerates(order, file.value.entries)
  }

  /** Merging the contents of `file` into the container `dest`. */
  ghost function MergeInto(dest: Plist, file: Plist, order: seq<string>): Effect
    requires OrdersKeys(order, Some(file))
  {
    match (dest, file)
    case (Array(xs), Array(ys)) => Effect(Array(xs + ys), Done)
    case (Array(xs), Dict(m)) =>
      if xs == [] then Effect(dest, Trap)
      else Effect(Array(xs[..|xs| - 1] + InOrder(m, order) + xs[|xs| - 1..]), Done)
    case (Array(xs), Leaf(_)) => Effect(Array(xs + [file]), Done)
    case (Dict(m), Dict(n)) => Effect(Dict(m + n), Done)
    case (Dict(_), Array(_)) => Effect(dest, ArrayIntoDict)
    case (Dict(m), Leaf(_)) => Effect(Dict(m["" := file]), Done)
    case (Leaf(_), _) => Effect(dest, NotContainer)
  }

  ghost function MergeAt(t: Plist, toks: seq<string>, file: Plist, order: seq<string>): Effect
    requires OrdersKeys(order, Some(file))
  {
    match Walk(t, toks)
    case None => Effect(t, NoEntry)
    case Some(dest) =>
      var e := MergeInto(dest, file, order);
      Effect(Rewrite(t, toks, e.tree), e.report)
  }

  ghost function MergeEffect(t: Plist, file: Option<Plist>, entry: Option<string>, order: seq<string>): Effect
    requires OrdersKeys(order, file)
  {
    if file.None? then Effect(t, NotLoaded)
    else
      var toks := if entry.Some? && entry.value != "" then Tokens(entry.value) else [];
      MergeAt(Create(t, toks), toks, file.value, order)
  }

  function ImportUnder(t: Plist, toks: seq<string>, file: Plist): Effect
    requires toks != []
  {
    match Walk(t, Front(toks))
    case None => Effect(t, NoEntry)
    case Some(Dict(m)) => Effect(Rewrite(t, Front(toks), Dict(m[Last(toks) := file])), Done)
    case Some(Array(xs)) =>
      var i := if Atoi(Last(toks)) < 0 then 0 else Atoi(Last(toks));
      Effect(Rewrite(t, Front(toks), Array(if i >= |xs| then xs + [file] else xs[i := file])), Done)
    case Some(Leaf(_)) => Effect(t, Ignored)
  }

  function ImportEffect(t: Plist, file: Option<Plist>, entry: string): Effect {
    if file.None? then Effect(t, NotLoaded)
    else ImportUnder(Create(t, Tokens(entry)), Tokens(entry), file.value)
  }

  /**
   One line of input, with what loading a file delivers while it runs (the file a Merge or Import
   names, or the edited file for a Revert) and the order in which that file's keys are listed.
   */
  datatype Request = Request(line: string, file: Option<Plist>, order: seq<string>)

  ghost predicate Answered(q: Request) { OrdersKeys(q.order, q.file) }

  ghost function CommandEffect(c: Libc, t: Plist, cmd: Command, file: Option<Plist>, order: seq<string>): Effect
    requires OrdersKeys(order, file)
  {
    match cmd
    case Exit => Effect(t, Ended)
    case Revert => Effect(if file.Some? then file.value else Dict(map[]), Done)
    case SetValue(entry, text) => SetEffect(c, t, entry, text)
    case Add(entry, ty, text) => AddEntryEffect(c, t, entry, ty, text)
    case Copy(src, dst) => CopyEffect(t, src, dst)
    case Delete(entry) => DeleteEffect(t, entry)
    case Merge(_, dest) => MergeEffect(t, file, dest, order)
    case Import(entry, _) => ImportEffect(t, file, entry)
    case _ => Effect(t, Ignored)
  }

  ghost function LineEffect(c: Libc, t: Plist, q: Request): Effect
    requires Answered(q)
  {
    CommandEffect(c, t, ParseLine(q.line), q.file, q.order)
  }

  /** A whole session: it ends early when the program exits or a foreign call breaks. */
  ghost function RunEffect(c: Libc, t: Plist, qs: seq<Request>): Effect
    requires forall i | 0 <= i < |qs| :: Answered(qs[i])
    decreases |qs|
  {
    if qs == [] then Effect(t, Done)
    else
      var e := LineEffect(c, t, qs[0]);
      if e.report == Ended || e.report == Trap then e else RunEffect(c, e.tree, qs[1..])
  }

  lemma CreateKeepsSource(t: Plist, toks: seq<string>, q: seq<string>)
    requires Walk(t, q).Some?
    ensures Walk(Create(t, toks), q).Some?
    ensures RouteOf(Create(t, toks), q) == RouteOf(t, q)
  {
    WalkIsGet(t, q);
    CreateKeepsRoutes(t, toks, q);
    WalkIsGet(Create(t, toks), q);
  }
}
