/**
 What each command answers and what it delivers, said of the tree before and by routes: when it
 succeeds, why it refuses, and what stands where afterwards.
 */
module PlistReports {
  import opened Options
  import opened PlistTree
  import opened PlistText
  import opened PlistEffects
  import opened PlistLaws

  // ---- When a command succeeds ----------------------------------------------------------------------

  /** The container that an entry's last token is looked up in, if the walk gets that far. */
  function ParentOf(t: Plist, entry: string): Option<Plist> { Walk(t, Front(Tokens(entry))) }

  function LastToken(entry: string): string { Last(Tokens(entry)) }

  /**
   Add succeeds exactly when a dictionary has to be created, when the parent is an array, or when it
   is a dictionary in which the entry does not exist; each refusal has its exact condition.
   */
  lemma AddReport(t: Plist, entry: string, v: Plist)
    ensures var rep, toks, p := AddEffect(t, entry, v).report, Tokens(entry), ParentOf(t, entry);
            && (rep == Done <==> || Misses(t, toks)
                                 || (p.Some? && p.value.Array?)
                                 || (p.Some? && p.value.Dict? && Walk(t, toks).None?))
            && (rep == NoEntry <==> !Misses(t, toks) && p.None?)
            && (rep == Exists <==> !Misses(t, toks) && p.Some? && !p.value.Array? && Walk(t, toks).Some?)
            && (rep == CannotAdd <==> !Misses(t, toks) && p.Some? && p.value.Leaf? && Walk(t, toks).None?)
  {
    var toks := Tokens(entry);
    if Misses(t, toks) {
      CreatedParent(t, entry);
      MissesCutsWalk(t, toks, |toks| - 1);
    } else {
      CreateNothing(t, toks);
    }
  }

  /** Add reads its value before it looks at the tree. */
  lemma AddEntryReport(c: Libc, t: Plist, entry: string, ty: PropertyType, text: string)
    ensures var e := AddEntryEffect(c, t, entry, ty, text);
            && (e.report == NotParsed <==> NewValue(c, ty, text).None?)
            && (e.report == NotParsed ==> e.tree == t)
            && (NewValue(c, ty, text).Some? ==> e == AddEffect(t, entry, NewValue(c, ty, text).value))
  {
    if NewValue(c, ty, text).Some? {
      AddReport(t, entry, NewValue(c, ty, text).value);
    }
  }

  /** Set succeeds exactly on an existing scalar inside a container whose type the text can be read as. */
  lemma SetReport(c: Libc, t: Plist, entry: string, text: string)
    ensures var rep, was, p := SetEffect(c, t, entry, text).report, Walk(t, Tokens(entry)), ParentOf(t, entry);
            && (rep == NoEntry <==> was.None?)
            && (rep == OnContainer <==> was.Some? && !was.value.Leaf?)
            && (rep == NotParsed <==> was.Some? && was.value.Leaf? && ParseValue(c, InferType(was.value), text).None?)
            && (rep == Done <==> && was.Some? && was.value.Leaf? && ParseValue(c, InferType(was.value), text).Some?
                                 && p.Some? && !p.value.Leaf?)
            && (rep != Done ==> SetEffect(c, t, entry, text).tree == t)
  {
    WalkLast(t, Tokens(entry));
  }

  /**
   Delete succeeds exactly when the entry exists inside a container; in an array the token of an empty
   path stands for index 0, which has to be there.
   */
  lemma DeleteReport(t: Plist, entry: string)
    ensures var rep, was, p := DeleteEffect(t, entry).report, Walk(t, Tokens(entry)), ParentOf(t, entry);
            && (rep == NoEntry <==> was.None?)
            && (rep == Done <==> && was.Some? && p.Some? && !p.value.Leaf?
                                 && (p.value.Array? ==> 0 <= Atoi(LastToken(entry)) < |p.value.items|))
            && (rep == Trap <==> rep != NoEntry && rep != Done)
            && (rep != Done ==> DeleteEffect(t, entry).tree == t)
  {
    WalkLast(t, Tokens(entry));
  }

  /**
   Copy succeeds exactly when the source exists and the destination does not, and either dictionaries
   have to be created for it, or its parent is a dictionary, or it is the index behind the last item.
   */
  lemma CopyReport(t: Plist, src: string, dst: string)
    ensures var rep, d, p := CopyEffect(t, src, dst).report, Tokens(dst), ParentOf(t, dst);
            && (rep == NoEntry <==> Walk(t, Tokens(src)).None?)
            && (rep == Exists <==> Walk(t, Tokens(src)).Some? && Walk(t, d).Some?)
            && (rep == Done <==>
                  && Walk(t, Tokens(src)).Some? && Walk(t, d).None?
                  && (|| Misses(t, d)
                      || (p.Some? && p.value.Dict?)
                      || (p.Some? && p.value.Array? && Atoi(LastToken(dst)) == |p.value.items|)))
            && (rep == Trap <==> rep != NoEntry && rep != Exists && rep != Done)
  {
    var d := Tokens(dst);
    if Misses(t, d) {
      CopyIntoCreated(t, src, dst);
    } else {
      CopyIntoExisting(t, src, dst);
    }
  }

  lemma CopyIntoCreated(t: Plist, src: string, dst: string)
    requires Misses(t, Tokens(dst))
    ensures Walk(t, Tokens(dst)).None?
    ensures CopyEffect(t, src, dst).report == if Walk(t, Tokens(src)).None? then NoEntry else Done
  {
    var d := Tokens(dst);
    CreatedParent(t, dst);
    MissesCutsWalk(t, d, |d|);
    assert d[..|d|] == d;
  }

  lemma CopyIntoExisting(t: Plist, src: string, dst: string)
    requires !Misses(t, Tokens(dst))
    ensures var p := ParentOf(t, dst);
            CopyEffect(t, src, dst).report ==
            if Walk(t, Tokens(src)).None? then NoEntry
            else if Walk(t, Tokens(dst)).Some? then Exists
            else if p.None? || p.value.Leaf? then Trap
            else if p.value.Dict? || Atoi(LastToken(dst)) == |p.value.items| then Done
            else Trap
  {
    CreateNothing(t, Tokens(dst));
    WalkLast(t, Tokens(dst));
  }

  /** Import succeeds exactly when a dictionary has to be created or the parent is a container. */
  lemma ImportReport(t: Plist, file: Option<Plist>, entry: string)
    ensures var rep, toks, p := ImportEffect(t, file, entry).report, Tokens(entry), ParentOf(t, entry);
            && (rep == NotLoaded <==> file.None?)
            && (rep == NoEntry <==> file.Some? && !Misses(t, toks) && p.None?)
            && (rep == Ignored <==> file.Some? && !Misses(t, toks) && p.Some? && p.value.Leaf?)
            && (rep == Done <==> file.Some? && (Misses(t, toks) || (p.Some? && !p.value.Leaf?)))
            && (rep != Done ==> ImportEffect(t, file, entry).tree == t)
  {
    var toks := Tokens(entry);
    if Misses(t, toks) {
      CreatedParent(t, entry);
      MissesCutsWalk(t, toks, |toks| - 1);
    } else {
      CreateNothing(t, toks);
    }
  }

  // ---- What a Merge delivers ------------------------------------------------------------------------

  /** The path that a Merge goes to: the root without an entry. */
  function MergePath(entry: Option<string>): seq<string> {
    if entry.Some? && entry.value != "" then Tokens(entry.value) else []
  }

  /** The answer of a Merge for every kind of destination and of file. */
  lemma MergeReport(t: Plist, file: Option<Plist>, entry: Option<string>, order: seq<string>)
    requires OrdersKeys(order, file)
    ensures var e, p := MergeEffect(t, file, entry, order), Walk(t, MergePath(entry));
            && (e.report == NotLoaded <==> file.None?)
            && (e.report == NoEntry <==> file.Some? && p.None?)
            && (e.report == NotContainer <==> file.Some? && p.Some? && p.value.Leaf?)
            && (e.report == ArrayIntoDict <==> file.Some? && p.Some? && p.value.Dict? && file.value.Array?)
            && (e.report == Trap <==> file.Some? && p.Some? && p.value == Array([]) && file.value.Dict?)
            && (e.report == Done <==>
                  && file.Some? && p.Some? && !p.value.Leaf?
                  && !(p.value.Dict? && file.value.Array?) && !(p.value == Array([]) && file.value.Dict?))
            && (e.report != Done && p.Some? ==> e.tree == t)
  {
    var toks := MergePath(entry);
    if Misses(t, toks) {
      CreatedParent(t, entry.value);
      MissesCutsWalk(t, toks, |toks|);
      assert toks[..|toks|] == toks;
    } else {
      CreateNothing(t, toks);
      if Walk(t, toks).Some? {
        RewriteReached(t, toks, Walk(t, toks).value);
      }
    }
  }

  /** A Merge into an existing destination changes the container there and nothing above it. */
  lemma MergedAt(t: Plist, file: Plist, entry: Option<string>, order: seq<string>, s: Slot)
    requires OrdersKeys(order, Some(file)) && Walk(t, MergePath(entry)).Some?
    ensures var toks := MergePath(entry);
            var r := RouteOf(t, toks);
            && r.Some? && Get(t, r.value) == Walk(t, toks)
            && Get(t, r.value + [s]) == Get(Walk(t, toks).value, [s])
            && Get(MergeEffect(t, Some(file), entry, order).tree, r.value + [s]) ==
               Get(MergeInto(Walk(t, toks).value, file, order).tree, [s])
  {
    var toks := MergePath(entry);
    WalkIsGet(t, toks);
    var r, p := RouteOf(t, toks).value, Walk(t, toks).value;
    assert toks[..|toks|] == toks;
    if Misses(t, toks) {
      MissesCutsWalk(t, toks, |toks|);
      assert false;
    }
    CreateNothing(t, toks);
    var u := MergeInto(p, file, order).tree;
    GetConcat(t, r, [s]);
    GetPutSame(t, r, u);
    GetConcat(Put(t, r, u), r, [s]);
  }

  lemma OneSlot(p: Plist, s: Slot)
    ensures Get(p, [s]) == if Has(p, s) then Some(At(p, s)) else None
  {
    if Has(p, s) {
      assert [s][1..] == [];
    }
  }

  /**
   A dictionary into a dictionary: every key of the file leads to the file's value, every other key
   to the old one.
   */
  lemma MergeDictIntoDict(t: Plist, file: Plist, entry: Option<string>, order: seq<string>, k: string)
    requires OrdersKeys(order, Some(file)) && file.Dict?
    requires Walk(t, MergePath(entry)).Some? && Walk(t, MergePath(entry)).value.Dict?
    ensures var e, r := MergeEffect(t, Some(file), entry, order), RouteOf(t, MergePath(entry));
            && e.report == Done && r.Some?
            && Get(e.tree, r.value + [Key(k)]) ==
               if k in file.entries then Some(file.entries[k]) else Get(t, r.value + [Key(k)])
  {
    MergeReport(t, Some(file), entry, order);
    MergedAt(t, file, entry, order, Key(k));
    var p := Walk(t, MergePath(entry)).value;
    OneSlot(p, Key(k));
    OneSlot(MergeInto(p, file, order).tree, Key(k));
  }

  /** An array into an array: old items keep their index, and item j of the file stands j behind them. */
  lemma MergeArrayIntoArray(t: Plist, file: Plist, entry: Option<string>, order: seq<string>, i: int)
    requires OrdersKeys(order, Some(file)) && file.Array?
    requires Walk(t, MergePath(entry)).Some? && Walk(t, MergePath(entry)).value.Array?
    ensures var e, r := MergeEffect(t, Some(file), entry, order), RouteOf(t, MergePath(entry));
            var count := |Walk(t, MergePath(entry)).value.items|;
            && e.report == Done && r.Some?
            && Get(e.tree, r.value + [Index(i)]) ==
               if i < count then Get(t, r.value + [Index(i)])
               else if i < count + |file.items| then Some(file.items[i - count])
               else None
  {
    MergeReport(t, Some(file), entry, order);
    MergedAt(t, file, entry, order, Index(i));
    var p := Walk(t, MergePath(entry)).value;
    OneSlot(p, Index(i));
    OneSlot(MergeInto(p, file, order).tree, Index(i));
  }

  /** A dictionary into an array: its values stand, in the order of its keys, before the last item. */
  lemma MergeDictIntoArray(t: Plist, file: Plist, entry: Option<string>, order: seq<string>, i: int)
    requires OrdersKeys(order, Some(file)) && file.Dict?
    requires Walk(t, MergePath(entry)).Some? && Walk(t, MergePath(entry)).value.Array?
    requires Walk(t, MergePath(entry)).value.items != []
    ensures var e, r := MergeEffect(t, Some(file), entry, order), RouteOf(t, MergePath(entry));
            var last := |Walk(t, MergePath(entry)).value.items| - 1;
            && e.report == Done && r.Some?
            && Get(e.tree, r.value + [Index(i)]) ==
               if i < last then Get(t, r.value + [Index(i)])
               else if i < last + |order| then Some(file.entries[order[i - last]])
               else Get(t, r.value + [Index(i - |order|)])
  {
    MergeReport(t, Some(file), entry, order);
    MergedAt(t, file, entry, order, Index(i));
    MergedAt(t, file, entry, order, Index(i - |order|));
    var p := Walk(t, MergePath(entry)).value;
    OneSlot(p, Index(i));
    OneSlot(p, Index(i - |order|));
    OneSlot(MergeInto(p, file, order).tree, Index(i));
  }

  /** A scalar goes behind the last item of an array, or to the empty key of a dictionary. */
  lemma MergeScalar(t: Plist, file: Plist, entry: Option<string>, order: seq<string>, s: Slot)
    requires OrdersKeys(order, Some(file)) && file.Leaf?
    requires Walk(t, MergePath(entry)).Some? && !Walk(t, MergePath(entry)).value.Leaf?
    ensures var e, r := MergeEffect(t, Some(file), entry, order), RouteOf(t, MergePath(entry));
            var p := Walk(t, MergePath(entry)).value;
            && e.report == Done && r.Some?
            && Get(e.tree, r.value + [s]) ==
               if s == (if p.Array? then Index(|p.items|) else Key("")) then Some(file) else Get(t, r.value + [s])
  {
    MergeReport(t, Some(file), entry, order);
    MergedAt(t, file, entry, order, s);
    var p := Walk(t, MergePath(entry)).value;
    OneSlot(p, s);
    OneSlot(MergeInto(p, file, order).tree, s);
  }
}
