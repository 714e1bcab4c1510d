/** Edits below one path never show at a path that leads elsewhere, over any session. */
module PlistApart {
  import opened Options
  import opened PlistTree
  import opened PlistText
  import opened PlistCommands
  import opened PlistEffects
  import opened PlistLaws

  /** `t'` differs from `t` only in the subtree that `base` leads to. */
  ghost predicate Below(t: Plist, base: seq<string>, t': Plist) {
    RouteOf(t, base).Some? && exists u :: t' == Put(t, RouteOf(t, base).value, u)
  }

  lemma BelowItself(t: Plist, base: seq<string>)
    requires Walk(t, base).Some?
    ensures Below(t, base, t)
  {
    WalkIsGet(t, base);
    PutGet(t, RouteOf(t, base).value);
  }

  /** The base stays where it is. */
  lemma BelowKeepsBase(t: Plist, base: seq<string>, t': Plist)
    requires Walk(t, base).Some? && Below(t, base, t')
    ensures RouteOf(t', base) == RouteOf(t, base) && Walk(t', base).Some?
  {
    WalkIsGet(t, base);
    var r := RouteOf(t, base).value;
    var u :| t' == Put(t, r, u);
    PutKeepsRoute(t, r, u, base);
    WalkIsGet(t', base);
  }

  lemma BelowTwice(t: Plist, base: seq<string>, t1: Plist, t2: Plist)
    requires Walk(t, base).Some? && Below(t, base, t1) && Below(t1, base, t2)
    ensures Below(t, base, t2)
  {
    BelowKeepsBase(t, base, t1);
    var r := RouteOf(t, base).value;
    var u :| t1 == Put(t, r, u);
    var w :| t2 == Put(t1, r, w);
    PutPut(t, r, u, w);
  }

  /** Rewriting at a longer path. */
  lemma RewriteBelow(t: Plist, base: seq<string>, toks: seq<string>, u: Plist)
    requires Walk(t, base).Some? && base <= toks
    ensures Below(t, base, Rewrite(t, toks, u))
  {
    var rest := toks[|base|..];
    assert toks == base + rest;
    RouteConcat(t, base, rest);
    WalkIsGet(t, base);
    if RouteOf(t, toks).None? {
      BelowItself(t, base);
    } else {
      PutConcat(t, RouteOf(t, base).value, RouteOf(Walk(t, base).value, rest).value, u);
    }
  }

  /** Creating the dictionaries of a longer path. */
  lemma CreateBelow(t: Plist, base: seq<string>, toks: seq<string>)
    requires Walk(t, base).Some? && base <= toks
    ensures Below(t, base, Create(t, toks))
  {
    if !Misses(t, toks) {
      CreateNothing(t, toks);
      BelowItself(t, base);
    } else {
      var n := MissPoint(t, toks);
      assert toks[..|base|] == base;
      if n < |base| {
        MissesCutsWalk(t, toks, |base|);
        assert false;
      }
      CreateIsPut(t, toks);
      var d := Walk(t, toks[..n]).value;
      RewriteBelow(t, base, toks[..n], Dict(d.entries[toks[n] := Create(Dict(map[]), toks[n + 1..])]));
    }
  }

  lemma FrontBelow(base: seq<string>, toks: seq<string>)
    requires base < toks
    ensures base <= Front(toks)
  {
  }

  /** Creating a longer path and then rewriting in it. */
  lemma CreateAndRewrite(t: Plist, base: seq<string>, toks: seq<string>, at: seq<string>, u: Plist)
    requires Walk(t, base).Some? && base <= toks && base <= at
    ensures Below(t, base, Rewrite(Create(t, toks), at, u))
  {
    CreateBelow(t, base, toks);
    BelowKeepsBase(t, base, Create(t, toks));
    RewriteBelow(Create(t, toks), base, at, u);
    BelowTwice(t, base, Create(t, toks), Rewrite(Create(t, toks), at, u));
  }

  /** The path that a command edits at. */
  function TargetOf(cmd: Command): Option<seq<string>> {
    match cmd
    case SetValue(entry, _) => Some(Tokens(entry))
    case Add(entry, _, _) => Some(Tokens(entry))
    case Copy(_, dst) => Some(Tokens(dst))
    case Delete(entry) => Some(Tokens(entry))
    case Merge(_, dest) => Some(if dest.Some? && dest.value != "" then Tokens(dest.value) else [])
    case Import(entry, _) => Some(Tokens(entry))
    case _ => None
  }

  /** The command edits below `base`, or edits nothing. */
  predicate EditsBelow(cmd: Command, base: seq<string>) {
    cmd != Revert && (TargetOf(cmd).Some? ==> base < TargetOf(cmd).value)
  }

  lemma AddBelow(t: Plist, base: seq<string>, entry: string, v: Plist)
    requires Walk(t, base).Some? && base < Tokens(entry)
    ensures Below(t, base, AddEffect(t, entry, v).tree)
  {
    var toks := Tokens(entry);
    CreateBelow(t, base, toks);
    FrontBelow(base, toks);
    var p := Walk(Create(t, toks), Front(toks));
    if p.Some? {
      CreateAndRewrite(t, base, toks, Front(toks), Filled(p.value, Last(toks), v));
    }
  }

  lemma SetBelow(c: Libc, t: Plist, base: seq<string>, entry: string, text: string)
    requires Walk(t, base).Some? && base < Tokens(entry)
    ensures Below(t, base, SetEffect(c, t, entry, text).tree)
  {
    var toks := Tokens(entry);
    BelowItself(t, base);
    if SetEffect(c, t, entry, text).report == Done {
      SetIsPut(c, t, entry, text);
      RewriteBelow(t, base, toks, Leaf(ParseValue(c, InferType(Walk(t, toks).value), text).value));
    }
  }

  lemma DeleteBelow(t: Plist, base: seq<string>, entry: string)
    requires Walk(t, base).Some? && base < Tokens(entry)
    ensures Below(t, base, DeleteEffect(t, entry).tree)
  {
    var toks := Tokens(entry);
    BelowItself(t, base);
    FrontBelow(base, toks);
    if DeleteEffect(t, entry).report == Done {
      WalkLast(t, toks);
      match Walk(t, Front(toks)).value
      case Dict(m) => RewriteBelow(t, base, Front(toks), Dict(m - {Last(toks)}));
      case Array(xs) => RewriteBelow(t, base, Front(toks), Array(RemoveAt(xs, Atoi(Last(toks)))));
      case Leaf(_) =>
    }
  }

  lemma CopyBelow(t: Plist, base: seq<string>, src: string, dst: string)
    requires Walk(t, base).Some? && base < Tokens(dst)
    ensures Below(t, base, CopyEffect(t, src, dst).tree)
  {
    var d := Tokens(dst);
    CreateBelow(t, base, d);
    FrontBelow(base, d);
    if CopyEffect(t, src, dst).report == Done {
      CreateKeepsSource(t, d, Tokens(src));
      var v := Walk(Create(t, d), Tokens(src)).value;
      match Walk(Create(t, d), Front(d)).value
      case Dict(m) => CreateAndRewrite(t, base, d, Front(d), Dict(AddKey(m, Last(d), v)));
      case Array(xs) => CreateAndRewrite(t, base, d, Front(d), Array(InsertAt(xs, Atoi(Last(d)), v)));
      case Leaf(_) =>
    }
  }

  lemma ImportBelow(t: Plist, base: seq<string>, file: Plist, entry: string)
    requires Walk(t, base).Some? && base < Tokens(entry)
    ensures Below(t, base, ImportEffect(t, Some(file), entry).tree)
  {
    var toks := Tokens(entry);
    CreateBelow(t, base, toks);
    FrontBelow(base, toks);
    if ImportEffect(t, Some(file), entry).report == Done {
      match Walk(Create(t, toks), Front(toks)).value
      case Dict(m) => CreateAndRewrite(t, base, toks, Front(toks), Dict(m[Last(toks) := file]));
      case Array(xs) =>
        var i := if Atoi(Last(toks)) < 0 then 0 else Atoi(Last(toks));
        CreateAndRewrite(t, base, toks, Front(toks), Array(if i >= |xs| then xs + [file] else xs[i := file]));
      case Leaf(_) =>
    }
  }

  lemma MergeBelow(t: Plist, base: seq<string>, file: Plist, toks: seq<string>, order: seq<string>)
    requires Walk(t, base).Some? && base < toks && OrdersKeys(order, Some(file))
    ensures Below(t, base, MergeAt(Create(t, toks), toks, file, order).tree)
  {
    CreateBelow(t, base, toks);
    var dest := Walk(Create(t, toks), toks);
    if dest.Some? {
      CreateAndRewrite(t, base, toks, toks, MergeInto(dest.value, file, order).tree);
    }
  }

  /** Whatever a command does below `base`, whether it succeeds or fails, it does nothing elsewhere. */
  lemma EditStaysBelow(c: Libc, t: Plist, cmd: Command, file: Option<Plist>, order: seq<string>, base: seq<string>)
    requires OrdersKeys(order, file) && Walk(t, base).Some? && EditsBelow(cmd, base)
    ensures Below(t, base, CommandEffect(c, t, cmd, file, order).tree)
  {
    BelowItself(t, base);
    match cmd
    case SetValue(entry, text) => SetBelow(c, t, base, entry, text);
    case Add(entry, ty, text) =>
      if NewValue(c, ty, text).Some? {
        AddBelow(t, base, entry, NewValue(c, ty, text).value);
      }
    case Copy(src, dst) => CopyBelow(t, base, src, dst);
    case Delete(entry) => DeleteBelow(t, base, entry);
    case Merge(_, dest) =>
      if file.Some? {
        MergeBelow(t, base, file.value, TargetOf(cmd).value, order);
      }
    case Import(entry, _) =>
      if file.Some? {
        ImportBelow(t, base, file.value, entry);
      }
    case _ =>
  }

  /** A path that leads elsewhere finds what it found before. */
  lemma ElsewhereStays(t: Plist, base: seq<string>, t': Plist, q: seq<string>)
    requires Walk(t, base).Some? && Walk(t, q).Some? && RouteOf(t, base).Some? && RouteOf(t, q).Some?
    requires Apart(RouteOf(t, base).value, RouteOf(t, q).value) && Below(t, base, t')
    ensures Walk(t', q) == Walk(t, q) && RouteOf(t', q) == RouteOf(t, q)
  {
    WalkIsGet(t, base);
    var r := RouteOf(t, base).value;
    var u :| t' == Put(t, r, u);
    PutKeepsRoute(t, r, u, q);
    WalkApart(t, r, u, q);
  }

  /** A session that edits only below `base` changes nothing outside the subtree there. */
  lemma {:induction false} SessionBelow(c: Libc, t: Plist, session: seq<Request>, base: seq<string>)
    requires forall i | 0 <= i < |session| :: Answered(session[i]) && EditsBelow(ParseLine(session[i].line), base)
    requires Walk(t, base).Some?
    ensures Below(t, base, RunEffect(c, t, session).tree)
    decreases |session|
  {
    BelowItself(t, base);
    if session != [] {
      var r := session[0];
      var t' := LineEffect(c, t, r).tree;
      EditStaysBelow(c, t, ParseLine(r.line), r.file, r.order, base);
      BelowKeepsBase(t, base, t');
      SessionBelow(c, t', session[1..], base);
      if LineEffect(c, t, r).report != Ended && LineEffect(c, t, r).report != Trap {
        BelowTwice(t, base, t', RunEffect(c, t', session[1..]).tree);
      }
    }
  }

  /** Over any session that edits only below `base`, a path that leads elsewhere never changes its value. */
  lemma SessionStaysBelow(c: Libc, t: Plist, session: seq<Request>, base: seq<string>, q: seq<string>)
    requires forall i | 0 <= i < |session| :: Answered(session[i]) && EditsBelow(ParseLine(session[i].line), base)
    requires Walk(t, base).Some? && Walk(t, q).Some? && RouteOf(t, base).Some? && RouteOf(t, q).Some?
    requires Apart(RouteOf(t, base).value, RouteOf(t, q).value)
    ensures Walk(RunEffect(c, t, session).tree, q) == Walk(t, q)
  {
    SessionBelow(c, t, session, base);
    ElsewhereStays(t, base, RunEffect(c, t, session).tree, q);
  }

  // ---- What one command touches -------------------------------------------------------------------

  /** The container that an edit of `toks` starts from. */
  function Anchor(t: Plist, toks: seq<string>): Option<Route>
    requires toks != []
  {
    RouteOf(t, toks[..AnchorLength(t, toks)])
  }

  /**
   The route that an edit of `toks` in the slot `s` of its anchor touches; in an array that moves
   its items, the whole array.
   */
  function TouchedSlot(t: Plist, toks: seq<string>, moves: bool, index: int): Option<Route>
    requires toks != []
  {
    var n := AnchorLength(t, toks);
    match (RouteOf(t, toks[..n]), Walk(t, toks[..n]))
    case (Some(r), Some(Dict(_))) => Some(r + [Key(toks[n])])
    case (Some(r), Some(Array(_))) => Some(if moves then r else r + [Index(index)])
    case _ => None
  }

  function AnchorCount(t: Plist, toks: seq<string>): nat
    requires toks != []
  {
    match Walk(t, toks[..AnchorLength(t, toks)])
    case Some(Array(xs)) => |xs|
    case _ => 0
  }

  /** The route at which a command changes the tree, if it changes it at all. */
  function Touched(t: Plist, cmd: Command): Option<Route> {
    match cmd
    case SetValue(entry, _) => RouteOf(t, Tokens(entry))
    case Add(entry, _, _) => TouchedSlot(t, Tokens(entry), true, 0)
    case Copy(_, dst) => TouchedSlot(t, Tokens(dst), false, AnchorCount(t, Tokens(dst)))
    case Delete(entry) => TouchedSlot(t, Tokens(entry), true, 0)
    case Merge(_, dest) =>
      var toks := if dest.Some? && dest.value != "" then Tokens(dest.value) else [];
      if toks != [] && Misses(t, toks) then TouchedSlot(t, toks, false, 0) else RouteOf(t, toks)
    case Import(entry, _) =>
      TouchedSlot(t, Tokens(entry), false, Clamp(Atoi(Last(Tokens(entry))), AnchorCount(t, Tokens(entry))))
    case _ => None
  }

  /** Binding the missing key shows at no route that leads apart from it. */
  lemma KeyBound(t: Plist, toks: seq<string>, w: Plist, q: Route)
    requires Misses(t, toks) && RouteOf(t, toks[..MissPoint(t, toks)]).Some?
    requires var n := MissPoint(t, toks); Apart(RouteOf(t, toks[..n]).value + [Key(toks[n])], q)
    ensures var n := MissPoint(t, toks);
            Get(Put(t, RouteOf(t, toks[..n]).value, Dict(Walk(t, toks[..n]).value.entries[toks[n] := w])), q) ==
                Get(t, q)
  {
    var n := MissPoint(t, toks);
    WalkIsGet(t, toks[..n]);
    SlotFrame(t, RouteOf(t, toks[..n]).value, Dict(Walk(t, toks[..n]).value.entries[toks[n] := w]), Key(toks[n]), q);
  }

  lemma CreateFrame(t: Plist, toks: seq<string>, q: Route)
    requires Misses(t, toks) && RouteOf(t, toks[..MissPoint(t, toks)]).Some?
    requires var n := MissPoint(t, toks); Apart(RouteOf(t, toks[..n]).value + [Key(toks[n])], q)
    ensures Get(Create(t, toks), q) == Get(t, q)
  {
    CreateIsPut(t, toks);
    KeyBound(t, toks, Create(Dict(map[]), toks[MissPoint(t, toks) + 1..]), q);
  }

  /** Creating and then rewriting under the new parent. */
  lemma CreatedFrame(t: Plist, toks: seq<string>, u: Plist, q: Route)
    requires Misses(t, toks) && RouteOf(t, toks[..MissPoint(t, toks)]).Some?
    requires var n := MissPoint(t, toks); Apart(RouteOf(t, toks[..n]).value + [Key(toks[n])], q)
    ensures Get(Rewrite(Create(t, toks), Front(toks), u), q) == Get(t, q)
  {
    assert toks[..MissPoint(t, toks) + 1] <= Front(toks);
    var w := CreatedRewrite(t, toks, Front(toks), u);
    KeyBound(t, toks, w, q);
  }

  /** Rewriting a parent in one slot, or altogether. */
  lemma ParentFrame(t: Plist, toks: seq<string>, u: Plist, s: Option<Slot>, q: Route)
    requires toks != [] && Walk(t, Front(toks)).Some? && RouteOf(t, Front(toks)).Some?
    requires match s
             case Some(x) => SameBut(Walk(t, Front(toks)).value, u, x) && Apart(RouteOf(t, Front(toks)).value + [x], q)
             case None => Apart(RouteOf(t, Front(toks)).value, q)
    ensures Get(Rewrite(t, Front(toks), u), q) == Get(t, q)
  {
    WalkIsGet(t, Front(toks));
    var r := RouteOf(t, Front(toks)).value;
    match s
    case Some(x) => SlotFrame(t, r, u, x, q);
    case None => GetPutApart(t, r, q, u);
  }

  /** The command leads apart from `q`, or changes nothing at all. */
  ghost predicate LeadsApart(t: Plist, cmd: Command, q: Route) {
    cmd != Revert && (Touched(t, cmd).Some? ==> Apart(Touched(t, cmd).value, q))
  }

  lemma AddFrame(t: Plist, entry: string, v: Plist, q: Route)
    requires var w := TouchedSlot(t, Tokens(entry), true, 0); w.Some? ==> Apart(w.value, q)
    ensures Get(AddEffect(t, entry, v).tree, q) == Get(t, q)
  {
    var toks := Tokens(entry);
    if Misses(t, toks) {
      CreateIsPut(t, toks);
      CreatedParent(t, entry);
      CreatedFrame(t, toks, Filled(Dict(map[]), Last(toks), v), q);
    } else {
      CreateNothing(t, toks);
      WalkIsGet(t, Front(toks));
      if AddEffect(t, entry, v).report == Done {
        var p := Walk(t, Front(toks)).value;
        ParentFrame(t, toks, Filled(p, Last(toks), v), if p.Dict? then Some(Key(Last(toks))) else None, q);
      }
    }
  }

  lemma DeleteFrame(t: Plist, entry: string, q: Route)
    requires var w := TouchedSlot(t, Tokens(entry), true, 0); w.Some? ==> Apart(w.value, q)
    ensures Get(DeleteEffect(t, entry).tree, q) == Get(t, q)
  {
    var toks := Tokens(entry);
    if DeleteEffect(t, entry).report == Done {
      WalkLast(t, toks);
      NoMiss(t, toks, |toks| - 1);
      WalkIsGet(t, Front(toks));
      match Walk(t, Front(toks)).value
      case Dict(m) => ParentFrame(t, toks, Dict(m - {Last(toks)}), Some(Key(Last(toks))), q);
      case Array(xs) => ParentFrame(t, toks, Array(RemoveAt(xs, Atoi(Last(toks)))), None, q);
      case Leaf(_) =>
    }
  }

  lemma CopyCreatedFrame(t: Plist, src: string, dst: string, q: Route)
    requires Misses(t, Tokens(dst))
    requires var d := Tokens(dst);
             var w := TouchedSlot(t, d, false, AnchorCount(t, d)); w.Some? ==> Apart(w.value, q)
    ensures Get(CopyEffect(t, src, dst).tree, q) == Get(t, q)
  {
    var d := Tokens(dst);
    CreateIsPut(t, d);
    CreatedParent(t, dst);
    CreateFrame(t, d, q);
    if Walk(t, Tokens(src)).Some? {
      CreateKeepsSource(t, d, Tokens(src));
      CreatedFrame(t, d, Dict(AddKey(map[], Last(d), Walk(Create(t, d), Tokens(src)).value)), q);
    }
  }

  /** Where nothing stands yet, the last token names an absent key, or an index outside the array. */
  lemma RoomUnder(t: Plist, toks: seq<string>)
    requires toks != [] && Walk(t, toks).None? && Walk(t, Front(toks)).Some?
    ensures match Walk(t, Front(toks)).value
            case Dict(m) => Last(toks) !in m
            case Array(xs) => !(0 <= Atoi(Last(toks)) < |xs|)
            case Leaf(_) => true
  {
    WalkLast(t, toks);
  }

  lemma AppendSame(xs: seq<Plist>, v: Plist)
    ensures SameBut(Array(xs), Array(InsertAt(xs, |xs|, v)), Index(|xs|))
  {
  }

  /** A copy goes behind the last item of an array or to an absent key. */
  lemma CopyPlainFrame(t: Plist, src: string, dst: string, q: Route)
    requires !Misses(t, Tokens(dst))
    requires var d := Tokens(dst);
             var w := TouchedSlot(t, d, false, AnchorCount(t, d)); w.Some? ==> Apart(w.value, q)
    ensures Get(CopyEffect(t, src, dst).tree, q) == Get(t, q)
  {
    var d := Tokens(dst);
    CreateNothing(t, d);
    WalkIsGet(t, Front(d));
    if CopyEffect(t, src, dst).report == Done {
      RoomUnder(t, d);
      var v := Walk(t, Tokens(src)).value;
      match Walk(t, Front(d)).value
      case Dict(m) => ParentFrame(t, d, Dict(AddKey(m, Last(d), v)), Some(Key(Last(d))), q);
      case Array(xs) =>
        AppendSame(xs, v);
        ParentFrame(t, d, Array(InsertAt(xs, |xs|, v)), Some(Index(|xs|)), q);
      case Leaf(_) =>
    }
  }

  lemma ImportFrame(t: Plist, file: Plist, entry: string, q: Route)
    requires var toks := Tokens(entry);
             var w := TouchedSlot(t, toks, false, Clamp(Atoi(Last(toks)), AnchorCount(t, toks)));
             w.Some? ==> Apart(w.value, q)
    ensures Get(ImportEffect(t, Some(file), entry).tree, q) == Get(t, q)
  {
    var toks := Tokens(entry);
    if Misses(t, toks) {
      CreateIsPut(t, toks);
      CreatedParent(t, entry);
      CreatedFrame(t, toks, Dict(map[][Last(toks) := file]), q);
    } else {
      CreateNothing(t, toks);
      WalkIsGet(t, Front(toks));
      if ImportEffect(t, Some(file), entry).report == Done {
        match Walk(t, Front(toks)).value
        case Dict(m) => ParentFrame(t, toks, Dict(m[Last(toks) := file]), Some(Key(Last(toks))), q);
        case Array(xs) =>
          var i := if Atoi(Last(toks)) < 0 then 0 else Atoi(Last(toks));
          var xs' := if i >= |xs| then xs + [file] else xs[i := file];
          ParentFrame(t, toks, Array(xs'), Some(Index(Clamp(Atoi(Last(toks)), |xs|))), q);
        case Leaf(_) =>
      }
    }
  }

  lemma MergeCreatedFrame(t: Plist, file: Plist, entry: string, order: seq<string>, q: Route)
    requires OrdersKeys(order, Some(file)) && entry != "" && Misses(t, Tokens(entry))
    requires var w := TouchedSlot(t, Tokens(entry), false, 0); w.Some? ==> Apart(w.value, q)
    ensures Get(MergeEffect(t, Some(file), Some(entry), order).tree, q) == Get(t, q)
  {
    CreateIsPut(t, Tokens(entry));
    CreatedParent(t, entry);
    CreateFrame(t, Tokens(entry), q);
  }

  lemma MergePlainFrame(t: Plist, file: Plist, toks: seq<string>, order: seq<string>, q: Route)
    requires OrdersKeys(order, Some(file)) && !Misses(t, toks)
    requires RouteOf(t, toks).Some? ==> Apart(RouteOf(t, toks).value, q)
    ensures Get(MergeAt(Create(t, toks), toks, file, order).tree, q) == Get(t, q)
  {
    CreateNothing(t, toks);
    WalkIsGet(t, toks);
    if Walk(t, toks).Some? {
      GetPutApart(t, RouteOf(t, toks).value, q, MergeInto(Walk(t, toks).value, file, order).tree);
    }
  }

  lemma MergeFrame(t: Plist, file: Plist, dest: Option<string>, order: seq<string>, q: Route)
    requires OrdersKeys(order, Some(file)) && LeadsApart(t, Merge("", dest), q)
    ensures Get(MergeEffect(t, Some(file), dest, order).tree, q) == Get(t, q)
  {
    var toks := if dest.Some? && dest.value != "" then Tokens(dest.value) else [];
    if toks != [] && Misses(t, toks) {
      MergeCreatedFrame(t, file, dest.value, order, q);
    } else {
      MergePlainFrame(t, file, toks, order, q);
    }
  }

  lemma SetApartFrame(c: Libc, t: Plist, entry: string, text: string, q: Route)
    requires var w := RouteOf(t, Tokens(entry)); w.Some? ==> Apart(w.value, q)
    ensures Get(SetEffect(c, t, entry, text).tree, q) == Get(t, q)
  {
    if SetEffect(c, t, entry, text).report == Done {
      SetIsPut(c, t, entry, text);
      var v := ParseValue(c, InferType(Walk(t, Tokens(entry)).value), text).value;
      GetPutApart(t, RouteOf(t, Tokens(entry)).value, q, Leaf(v));
    }
  }

  /** The commands that read a file. */
  lemma FileFrame(c: Libc, t: Plist, cmd: Command, file: Option<Plist>, order: seq<string>, q: Route)
    requires OrdersKeys(order, file) && LeadsApart(t, cmd, q) && (cmd.Merge? || cmd.Import?)
    ensures Get(CommandEffect(c, t, cmd, file, order).tree, q) == Get(t, q)
  {
    if file.Some? {
      match cmd
      case Merge(_, dest) => MergeFrame(t, file.value, dest, order, q);
      case Import(entry, _) => ImportFrame(t, file.value, entry, q);
    }
  }

  /** Whatever a command does, succeeding or failing, every route apart from what it touches leads to the same. */
  lemma EditFrame(c: Libc, t: Plist, cmd: Command, file: Option<Plist>, order: seq<string>, q: Route)
    requires OrdersKeys(order, file) && LeadsApart(t, cmd, q)
    ensures Get(CommandEffect(c, t, cmd, file, order).tree, q) == Get(t, q)
  {
    match cmd
    case SetValue(entry, text) =>
      SetApartFrame(c, t, entry, text, q);
    case Add(entry, ty, text) =>
      if NewValue(c, ty, text).Some? {
        AddFrame(t, entry, NewValue(c, ty, text).value, q);
      }
    case Copy(src, dst) =>
      if Misses(t, Tokens(dst)) {
        CopyCreatedFrame(t, src, dst, q);
      } else {
        CopyPlainFrame(t, src, dst, q);
      }
    case Delete(entry) => DeleteFrame(t, entry, q);
    case Merge(_, _) => FileFrame(c, t, cmd, file, order, q);
    case Import(_, _) => FileFrame(c, t, cmd, file, order, q);
    case _ =>
  }

  /** Every command of the session leads apart from `q` in the tree that it finds. */
  ghost predicate SessionApart(c: Libc, t: Plist, session: seq<Request>, q: Route)
    requires forall i | 0 <= i < |session| :: Answered(session[i])
    decreases |session|
  {
    session == [] ||
    (LeadsApart(t, ParseLine(session[0].line), q) &&
     var e := LineEffect(c, t, session[0]);
     (e.report == Ended || e.report == Trap || SessionApart(c, e.tree, session[1..], q)))
  }

  /** Over any such session the route keeps leading to the same. */
  lemma {:induction false} SessionFrame(c: Libc, t: Plist, session: seq<Request>, q: Route)
    requires (forall i | 0 <= i < |session| :: Answered(session[i])) && SessionApart(c, t, session, q)
    ensures Get(RunEffect(c, t, session).tree, q) == Get(t, q)
    decreases |session|
  {
    if session != [] {
      var r := session[0];
      var e := LineEffect(c, t, r);
      EditFrame(c, t, ParseLine(r.line), r.file, r.order, q);
      if e.report != Ended && e.report != Trap {
        SessionFrame(c, e.tree, session[1..], q);
      }
    }
  }

  /** A path has the same route in every tree where that route leads somewhere: its slots say what kinds it passes. */
  lemma {:induction false} RouteBySlots(t: Plist, t': Plist, toks: seq<string>)
    requires RouteOf(t, toks).Some? && Get(t', RouteOf(t, toks).value).Some?
    ensures RouteOf(t', toks) == RouteOf(t, toks)
    decreases |toks|
  {
    if toks == [] {
    } else if toks[0] == "" {
      RouteBySlots(t, t', toks[1..]);
    } else {
      var s, r := Name(t, toks[0]), RouteOf(t, toks).value;
      assert r[1..] == RouteOf(At(t, s), toks[1..]).value;
      RouteBySlots(At(t, s), At(t', s), toks[1..]);
    }
  }

  // ---- Copies -------------------------------------------------------------------------------------

  /** A path above what is touched still leads to a container. */
  lemma GetAbove(t: Plist, r: Route, q: Route)
    requires Get(t, r).Some? && q <= r
    ensures Get(t, q).Some?
  {
    assert r == q + r[|q|..];
    GetConcat(t, q, r[|q|..]);
  }

  lemma CreatedCopySlot(t: Plist, src: string, dst: string) returns (r: Route, s: Slot)
    requires CopyEffect(t, src, dst).report == Done && Misses(t, Tokens(dst))
    ensures Touched(t, Copy(src, dst)) == Some(r + [s]) && Anchor(t, Tokens(dst)) == Some(r)
    ensures Get(t, r).Some? && !Has(Get(t, r).value, s) && Get(CopyEffect(t, src, dst).tree, r).Some?
  {
    var d := Tokens(dst);
    var n := AnchorLength(t, d);
    CreateIsPut(t, d);
    CreatedParent(t, dst);
    WalkIsGet(t, d[..n]);
    r, s := RouteOf(t, d[..n]).value, Key(d[n]);
    CreateKeepsSource(t, d, Tokens(src));
    assert d[..n + 1] <= Front(d);
    var v := Walk(Create(t, d), Tokens(src)).value;
    var w := CreatedRewrite(t, d, Front(d), Dict(AddKey(map[], Last(d), v)));
    GetPutSame(t, r, Dict(Walk(t, d[..n]).value.entries[d[n] := w]));
  }

  lemma PlainCopySlot(t: Plist, src: string, dst: string) returns (r: Route, s: Slot)
    requires CopyEffect(t, src, dst).report == Done && !Misses(t, Tokens(dst))
    ensures Touched(t, Copy(src, dst)) == Some(r + [s]) && Anchor(t, Tokens(dst)) == Some(r)
    ensures Get(t, r).Some? && !Has(Get(t, r).value, s) && Get(CopyEffect(t, src, dst).tree, r).Some?
  {
    var d := Tokens(dst);
    CreateNothing(t, d);
    WalkIsGet(t, Front(d));
    WalkLast(t, d);
    r := RouteOf(t, Front(d)).value;
    var v := Walk(t, Tokens(src)).value;
    match Walk(t, Front(d)).value
    case Dict(m) =>
      s := Key(Last(d));
      GetPutSame(t, r, Dict(AddKey(m, Last(d), v)));
    case Array(xs) =>
      s := Index(|xs|);
      GetPutSame(t, r, Array(InsertAt(xs, Atoi(Last(d)), v)));
  }

  /** The slot that a successful Copy fills was not there, and its container is where it was. */
  lemma CopySlot(t: Plist, src: string, dst: string) returns (r: Route, s: Slot)
    requires CopyEffect(t, src, dst).report == Done
    ensures Touched(t, Copy(src, dst)) == Some(r + [s]) && Anchor(t, Tokens(dst)) == Some(r)
    ensures Get(t, r).Some? && !Has(Get(t, r).value, s) && Get(CopyEffect(t, src, dst).tree, r).Some?
  {
    if Misses(t, Tokens(dst)) {
      r, s := CreatedCopySlot(t, src, dst);
    } else {
      r, s := PlainCopySlot(t, src, dst);
    }
  }

  /** After a Copy every path that resolved before keeps its route. */
  lemma CopyKeepsPaths(t: Plist, src: string, dst: string, q: seq<string>)
    requires CopyEffect(t, src, dst).report == Done && Walk(t, q).Some?
    ensures RouteOf(t, q).Some? && RouteOf(CopyEffect(t, src, dst).tree, q) == RouteOf(t, q)
    ensures Walk(CopyEffect(t, src, dst).tree, q).Some?
  {
    var t1 := CopyEffect(t, src, dst).tree;
    var r, s := CopySlot(t, src, dst);
    WalkIsGet(t, q);
    var rq := RouteOf(t, q).value;
    SlotAbsent(t, r, s, rq);
    if rq <= r {
      GetAbove(t1, r, rq);
    } else {
      ApartSlot(r, s, rq);
      CopyEditFrame(t, src, dst, rq);
    }
    RouteBySlots(t, t1, q);
    WalkIsGet(t1, q);
  }

  lemma CopyEditFrame(t: Plist, src: string, dst: string, q: Route)
    requires var d := Tokens(dst);
             var w := TouchedSlot(t, d, false, AnchorCount(t, d)); w.Some? ==> Apart(w.value, q)
    ensures Get(CopyEffect(t, src, dst).tree, q) == Get(t, q)
  {
    if Misses(t, Tokens(dst)) {
      CopyCreatedFrame(t, src, dst, q);
    } else {
      CopyPlainFrame(t, src, dst, q);
    }
  }

  /** No route that leads somewhere goes through a slot that is not there. */
  lemma SlotAbsent(t: Plist, r: Route, s: Slot, q: Route)
    requires Get(t, r).Some? && !Has(Get(t, r).value, s) && Get(t, q).Some?
    ensures !(r + [s] <= q)
  {
    if r + [s] <= q {
      GetAbove(t, q, r + [s]);
      GetConcat(t, r, [s]);
      assert false;
    }
  }

  /** The route of the copy goes through the slot that was filled. */
  lemma CopyRoute(t: Plist, src: string, dst: string, r: Route, s: Slot)
    requires CopyEffect(t, src, dst).report == Done && Get(t, r).Some? && Touched(t, Copy(src, dst)) == Some(r + [s])
    ensures RouteOf(CopyEffect(t, src, dst).tree, Tokens(dst)).Some?
    ensures r + [s] <= RouteOf(CopyEffect(t, src, dst).tree, Tokens(dst)).value
  {
    var t1, d := CopyEffect(t, src, dst).tree, Tokens(dst);
    CopyArrives(t, src, dst);
    WalkIsGet(t1, d);
    var rd := RouteOf(t1, d).value;
    if !(r + [s] <= rd) {
      if rd <= r {
        GetAbove(t, r, rd);
      } else {
        ApartSlot(r, s, rd);
        CopyEditFrame(t, src, dst, rd);
      }
      RouteBySlots(t1, t, d);
      WalkIsGet(t, d);
      CopyNeedsRoom(t, src, dst);
      assert false;
    }
  }

  /** Nothing stands at the destination before a Copy. */
  lemma CopyNeedsRoom(t: Plist, src: string, dst: string)
    requires CopyEffect(t, src, dst).report == Done
    ensures Walk(t, Tokens(dst)).None?
  {
    if Walk(t, Tokens(dst)).Some? {
      CreateKeepsSource(t, Tokens(dst), Tokens(dst));
    }
  }

  /**
   The destination lies inside the source: the source leads to the container that the copy starts
   from, or above it.
   */
  predicate Nested(t: Plist, src: string, dst: string) {
    && RouteOf(t, Tokens(src)).Some? && Anchor(t, Tokens(dst)).Some?
    && RouteOf(t, Tokens(src)).value <= Anchor(t, Tokens(dst)).value
  }

  /** Where source and copy stand after a Copy: apart, or the copy inside the source. */
  lemma CopyPlaces(t: Plist, src: string, dst: string)
    requires CopyEffect(t, src, dst).report == Done
    ensures var t1 := CopyEffect(t, src, dst).tree;
            var s, d := RouteOf(t1, Tokens(src)), RouteOf(t1, Tokens(dst));
            && s.Some? && s == RouteOf(t, Tokens(src)) && Walk(t1, Tokens(src)).Some?
            && d.Some? && Walk(t1, Tokens(dst)).Some?
            && if Nested(t, src, dst) then s.value < d.value else Apart(s.value, d.value)
  {
    var t1 := CopyEffect(t, src, dst).tree;
    CopyKeepsPaths(t, src, dst, Tokens(src));
    CopyArrives(t, src, dst);
    var r, x := CopySlot(t, src, dst);
    CopyRoute(t, src, dst, r, x);
    var s, d := RouteOf(t1, Tokens(src)).value, RouteOf(t1, Tokens(dst)).value;
    WalkIsGet(t, Tokens(src));
    SlotAbsent(t, r, x, s);
    PlacesOf(s, d, r, x);
  }

  lemma PlacesOf(s: Route, d: Route, r: Route, x: Slot)
    requires r + [x] <= d && !(r + [x] <= s)
    ensures if s <= r then s < d else Apart(s, d)
  {
    assert forall i | 0 <= i < |r| :: d[i] == (r + [x])[i];
    assert d[|r|] == (r + [x])[|r|];
  }

  /** A change below `base` that lies inside what `q` leads to changes only that part of it. */
  lemma InsideOnly(t: Plist, base: seq<string>, t': Plist, q: seq<string>) returns (u: Plist)
    requires Walk(t, base).Some? && Walk(t, q).Some? && RouteOf(t, base).Some? && RouteOf(t, q).Some?
    requires RouteOf(t, q).value <= RouteOf(t, base).value && Below(t, base, t')
    ensures Walk(t', q) == Some(Put(Walk(t, q).value, RouteOf(t, base).value[|RouteOf(t, q).value|..], u))
  {
    var rb, rq := RouteOf(t, base).value, RouteOf(t, q).value;
    var rest := rb[|rq|..];
    u :| t' == Put(t, rb, u);
    assert rb == rq + rest;
    WalkIsGet(t, q);
    PutConcat(t, rq, rest, u);
    GetPutSame(t, rq, Put(Walk(t, q).value, rest, u));
    RouteBySlots(t, t', q);
    WalkIsGet(t', q);
  }

  /** Every command of the session edits below `base`, or edits nothing. */
  ghost predicate AllBelow(session: seq<Request>, base: seq<string>) {
    forall i | 0 <= i < |session| :: EditsBelow(ParseLine(session[i].line), base)
  }

  /** A path that a session leads apart from finds what it found before. */
  lemma CopyKept(c: Libc, t: Plist, session: seq<Request>, q: seq<string>)
    requires (forall i | 0 <= i < |session| :: Answered(session[i])) && Walk(t, q).Some? && RouteOf(t, q).Some?
    requires SessionApart(c, t, session, RouteOf(t, q).value)
    ensures Walk(RunEffect(c, t, session).tree, q) == Walk(t, q)
  {
    SessionFrame(c, t, session, RouteOf(t, q).value);
    WalkIsGet(t, q);
    RouteBySlots(t, RunEffect(c, t, session).tree, q);
    WalkIsGet(RunEffect(c, t, session).tree, q);
  }

  /**
   After a Copy to a destination that does not lie inside its source, no session below the one ever
   shows at the other: the source keeps its value while the copy is edited, and the copy while the
   source is.
   */
  lemma CopiesStayApart(c: Libc, t: Plist, src: string, dst: string, session: seq<Request>)
    requires CopyEffect(t, src, dst).report == Done && !Nested(t, src, dst)
    requires forall i | 0 <= i < |session| :: Answered(session[i])
    ensures var t1 := CopyEffect(t, src, dst).tree;
            && Walk(t1, Tokens(src)).Some?
            && (AllBelow(session, Tokens(dst)) ==>
                  Walk(RunEffect(c, t1, session).tree, Tokens(src)) == Walk(t1, Tokens(src)))
            && (AllBelow(session, Tokens(src)) ==>
                  Walk(RunEffect(c, t1, session).tree, Tokens(dst)) == Walk(Create(t, Tokens(dst)), Tokens(src)))
  {
    var t1 := CopyEffect(t, src, dst).tree;
    CopyPlaces(t, src, dst);
    CopyArrives(t, src, dst);
    if AllBelow(session, Tokens(dst)) {
      SessionStaysBelow(c, t1, session, Tokens(dst), Tokens(src));
    }
    if AllBelow(session, Tokens(src)) {
      SessionStaysBelow(c, t1, session, Tokens(src), Tokens(dst));
    }
  }

  /** After a Copy into its own source, a session below the copy changes the source in that slot only. */
  lemma NestedCopyEdits(c: Libc, t: Plist, src: string, dst: string, session: seq<Request>) returns (u: Plist)
    requires CopyEffect(t, src, dst).report == Done && Nested(t, src, dst)
    requires (forall i | 0 <= i < |session| :: Answered(session[i])) && AllBelow(session, Tokens(dst))
    ensures var t1 := CopyEffect(t, src, dst).tree;
            var s, d := RouteOf(t1, Tokens(src)), RouteOf(t1, Tokens(dst));
            && s.Some? && d.Some? && Walk(t1, Tokens(src)).Some? && |s.value| < |d.value|
            && Walk(RunEffect(c, t1, session).tree, Tokens(src)) ==
               Some(Put(Walk(t1, Tokens(src)).value, d.value[|s.value|..], u))
  {
    var t1 := CopyEffect(t, src, dst).tree;
    CopyPlaces(t, src, dst);
    SessionBelow(c, t1, session, Tokens(dst));
    u := InsideOnly(t1, Tokens(dst), RunEffect(c, t1, session).tree, Tokens(src));
  }

  /**
   Wherever a Copy went, the copy keeps its value over every session that leads apart from it, edits
   of the source included.
   */
  lemma CopyUntouched(c: Libc, t: Plist, src: string, dst: string, session: seq<Request>)
    requires CopyEffect(t, src, dst).report == Done && forall i | 0 <= i < |session| :: Answered(session[i])
    ensures var t1 := CopyEffect(t, src, dst).tree;
            var d := RouteOf(t1, Tokens(dst));
            && d.Some?
            && (SessionApart(c, t1, session, d.value) ==>
                  Walk(RunEffect(c, t1, session).tree, Tokens(dst)) == Walk(Create(t, Tokens(dst)), Tokens(src)))
  {
    var t1 := CopyEffect(t, src, dst).tree;
    CopyArrives(t, src, dst);
    WalkIsGet(t1, Tokens(dst));
    if SessionApart(c, t1, session, RouteOf(t1, Tokens(dst)).value) {
      CopyKept(c, t1, session, Tokens(dst));
    }
  }
}
