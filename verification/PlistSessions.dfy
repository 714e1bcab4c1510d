/** What a typed line does, from its text to the tree. */
module PlistSessions {
  import opened Options
  import opened PlistTree
  import opened PlistText
  import opened PlistCommands
  import opened PlistLines
  import opened PlistEffects
  import opened PlistLaws

  function SetLineFor(entry: string, v: string): string {
    "Set" + (" " + (QuoteWord(entry) + (" " + Quote(v))))
  }

  function AddLineFor(entry: string, v: string): string {
    "Add" + (" " + (QuoteWord(entry) + (" " + ("string" + (" " + Quote(v))))))
  }

  lemma LineIs(c: Libc, t: Plist, q: Request, cmd: Command)
    requires Answered(q) && ParseLine(q.line) == cmd
    ensures LineEffect(c, t, q) == CommandEffect(c, t, cmd, q.file, q.order)
  {
  }

  /** The effects of the commands that edit. */
  lemma LineDoes(c: Libc, t: Plist, q: Request, cmd: Command)
    requires Answered(q) && ParseLine(q.line) == cmd
    ensures match cmd
            case SetValue(entry, text) => LineEffect(c, t, q) == SetEffect(c, t, entry, text)
            case Add(entry, ty, text) => LineEffect(c, t, q) == AddEntryEffect(c, t, entry, ty, text)
            case Copy(src, dst) => LineEffect(c, t, q) == CopyEffect(t, src, dst)
            case Delete(entry) => LineEffect(c, t, q) == DeleteEffect(t, entry)
            case Merge(_, dest) => LineEffect(c, t, q) == MergeEffect(t, q.file, dest, q.order)
            case Import(entry, _) => LineEffect(c, t, q) == ImportEffect(t, q.file, entry)
            case _ => true
  {
    LineIs(c, t, q, cmd);
  }

  /** The value that a quoted text stands for under an entry of string type. */
  lemma SetString(c: Libc, t: Plist, entry: string, v: string)
    requires !t.Leaf? && TypeAt(t, Tokens(entry)) == Some(StringType)
    ensures var e := SetEffect(c, t, entry, Quote(v));
            e.report == Done && Walk(e.tree, Tokens(entry)) == Some(Leaf(Str(v)))
  {
    var toks := Tokens(entry);
    UnquoteQuote(v);
    WalkLast(t, toks);
    assert SetEffect(c, t, entry, Quote(v)) == WriteEffect(t, toks, Str(v));
    TokensAreNames(entry);
    WriteIsPut(t, toks, Str(v));
    RewriteReached(t, toks, Leaf(Str(v)));
  }

  /**
   Setting a string entry to any string, quotes, backslashes and line breaks included: typed with
   the escapes of `Quote`, exactly that string is found at the entry afterwards.
   */
  lemma SetWritesString(c: Libc, t: Plist, entry: string, v: string)
    requires Paired(entry) && !t.Leaf? && TypeAt(t, Tokens(entry)) == Some(StringType)
    ensures var e := LineEffect(c, t, Request(SetLineFor(entry, v), None, []));
            e.report == Done && Walk(e.tree, Tokens(entry)) == Some(Leaf(Str(v)))
  {
    SetLineEffect(c, t, entry, v);
    SetString(c, t, entry, v);
  }

  lemma SetLineEffect(c: Libc, t: Plist, entry: string, v: string)
    requires Paired(entry)
    ensures LineEffect(c, t, Request(SetLineFor(entry, v), None, [])) == SetEffect(c, t, entry, Quote(v))
  {
    var line := SetLineFor(entry, v);
    assert ParseLine(line) == SetValue(entry, Quote(v)) by {
      SetQuoted(entry, v);
    }
    LineDoes(c, t, Request(line, None, []), SetValue(entry, Quote(v)));
  }

  /** Adding a string entry: whenever Add succeeds with an index it need not clamp, the entry holds the string. */
  lemma AddWritesString(c: Libc, t: Plist, entry: string, v: string)
    requires Paired(entry)
    ensures var e := LineEffect(c, t, Request(AddLineFor(entry, v), None, []));
            && e == AddEffect(t, entry, Leaf(Str(v)))
            && (e.report == Done && Unclamped(t, entry) ==> Walk(e.tree, Tokens(entry)) == Some(Leaf(Str(v))))
  {
    var line := AddLineFor(entry, v);
    assert ParseLine(line) == Add(entry, StringType, Quote(v)) by {
      AddQuoted(entry, v);
    }
    LineDoes(c, t, Request(line, None, []), Add(entry, StringType, Quote(v)));
    UnquoteQuote(v);
    assert NewValue(c, StringType, Quote(v)) == Some(Leaf(Str(v)));
    if AddEffect(t, entry, Leaf(Str(v))).report == Done {
      AddedIsFound(Create(t, Tokens(entry)), entry, Leaf(Str(v)));
    }
  }

  /** The entry names a slot of its parent that Add fills as it is written. */
  predicate Unclamped(t: Plist, entry: string) {
    var toks := Tokens(entry);
    var p := Walk(Create(t, toks), Front(toks));
    Last(toks) != "" && (p.Some? && p.value.Array? ==> 0 <= Atoi(Last(toks)) <= |p.value.items|)
  }

  lemma AddedIsFound(t: Plist, entry: string, v: Plist)
    requires AddUnder(t, Tokens(entry), v).report == Done
    ensures var toks := Tokens(entry);
            var p := Walk(t, Front(toks)).value;
            (p.Array? ==> 0 <= Atoi(Last(toks)) <= |p.items|) && Last(toks) != "" ==>
            Walk(AddUnder(t, toks, v).tree, toks) == Some(v)
  {
    var toks := Tokens(entry);
    var p := Walk(t, Front(toks)).value;
    var p' := Filled(p, Last(toks), v);
    RewriteReached(t, Front(toks), p');
    WalkLast(t, toks);
    WalkLast(Rewrite(t, Front(toks), p'), toks);
  }

  // ---- From a line to the tree ----------------------------------------------------------------------

  /** A Copy line copies from its first word to its second. */
  lemma {:induction false} CopyLineEffect(c: Libc, t: Plist, w: string, x: string, src: string, y: string, dst: string)
    requires (EqIgnoreCase(w, "Copy") || EqIgnoreCase(w, "cp")) && Writes(x, src) && Writes(y, dst)
    ensures LineEffect(c, t, Request(w + (" " + x + (" " + y)), None, [])) == CopyEffect(t, src, dst)
  {
    var line := w + (" " + x + (" " + y));
    assert ParseLine(line) == Copy(src, dst) by {
      CopyLine(w, x, src, y, dst);
    }
    LineDoes(c, t, Request(line, None, []), Copy(src, dst));
  }

  /** A Delete line deletes the entry that the rest of the line spells. */
  lemma {:induction false} DeleteLineEffect(c: Libc, t: Plist, w: string, entry: string)
    requires EqIgnoreCase(w, "Delete") || EqIgnoreCase(w, "rm") || EqIgnoreCase(w, "-")
    requires entry != [] && !IsSpace(entry[0])
    ensures LineEffect(c, t, Request(w + (" " + entry), None, [])) == DeleteEffect(t, entry)
  {
    var line := w + (" " + entry);
    assert ParseLine(line) == Delete(entry) by {
      LastArgument(entry);
      DeleteLine(w, " " + entry);
    }
    LineDoes(c, t, Request(line, None, []), Delete(entry));
  }

  /** A Merge line merges the file into the destination behind its name, or into the root. */
  lemma {:induction false} MergeLineEffect(c: Libc, t: Plist, w: string, x: string, path: string, rest: string,
      file: Option<Plist>,
                        order: seq<string>)
    requires EqIgnoreCase(w, "Merge") && Writes(x, path) && Follows(rest) && OrdersKeys(order, file)
    ensures LineEffect(c, t, Request(w + (" " + x + rest), file, order)) == MergeEffect(t, file, NextWord(rest), order)
  {
    var line := w + (" " + x + rest);
    assert ParseLine(line) == Merge(path, NextWord(rest)) by {
      MergeLine(w, x, path, rest);
    }
    LineDoes(c, t, Request(line, file, order), Merge(path, NextWord(rest)));
  }

  /** An Import line imports the file that its second word names at the entry that its first word names. */
  lemma {:induction false} ImportLineEffect(c: Libc, t: Plist, w: string, x: string, entry: string, y: string,
      path: string,
                         file: Option<Plist>, order: seq<string>)
    requires EqIgnoreCase(w, "Import") && Writes(x, entry) && Writes(y, path) && OrdersKeys(order, file)
    ensures LineEffect(c, t, Request(w + (" " + x + (" " + y)), file, order)) == ImportEffect(t, file, entry)
  {
    var line := w + (" " + x + (" " + y));
    assert ParseLine(line) == Import(entry, path) by {
      ImportLine(w, x, entry, y, path);
    }
    LineDoes(c, t, Request(line, file, order), Import(entry, path));
  }

  /** A Set line writes the rest behind its entry. */
  lemma {:induction false} SetTextEffect(c: Libc, t: Plist, w: string, x: string, entry: string, rest: string)
    requires (EqIgnoreCase(w, "Set") || EqIgnoreCase(w, "=")) && Writes(x, entry) && Follows(rest)
    ensures LineEffect(c, t, Request(w + (" " + x + rest), None, [])) ==
            SetEffect(c, t, entry, OrEmpty(NextWord(rest)))
  {
    var line := w + (" " + x + rest);
    assert ParseLine(line) == SetValue(entry, OrEmpty(NextWord(rest))) by {
      SetLineOf(w, x, entry, rest);
    }
    LineDoes(c, t, Request(line, None, []), SetValue(entry, OrEmpty(NextWord(rest))));
  }

  /** An Add line adds a value of the type that its second word names. */
  lemma {:induction false} AddTextEffect(c: Libc, t: Plist, w: string, x: string, entry: string, word: string,
      name: string, rest: string)
    requires (EqIgnoreCase(w, "Add") || EqIgnoreCase(w, "+")) && Writes(x, entry) && Follows(rest)
    requires name in TypeNames() && EqIgnoreCase(word, name) && Writes(word, word)
    ensures LineEffect(c, t, Request(w + (" " + x + (" " + word + rest)), None, [])) ==
            AddEntryEffect(c, t, entry, TypeNames()[name], OrEmpty(NextWord(rest)))
  {
    var line := w + (" " + x + (" " + word + rest));
    var cmd := Add(entry, TypeNames()[name], OrEmpty(NextWord(rest)));
    assert ParseLine(line) == cmd by {
      AddLineOf(w, x, entry, word, name, rest);
    }
    LineDoes(c, t, Request(line, None, []), cmd);
  }

  /** Revert goes back to what was loaded, or to an empty dictionary. */
  lemma {:induction false} RevertLineEffect(c: Libc, t: Plist, w: string, rest: string, file: Option<Plist>,
      order: seq<string>)
    requires EqIgnoreCase(w, "Revert") && Follows(rest) && OrdersKeys(order, file)
    ensures LineEffect(c, t, Request(w + rest, file, order)) ==
            Effect(if file.Some? then file.value else Dict(map[]), Done)
  {
    assert ParseLine(w + rest) == Revert by {
      RevertLine(w, rest);
    }
    LineIs(c, t, Request(w + rest, file, order), Revert);
  }

  /** The lines that change nothing. */
  predicate Harmless(cmd: Command) {
    || cmd.Exit? || cmd.Help? || cmd.Save? || cmd.Print? || cmd.Clear?
    || cmd.Missing? || cmd.BadWord? || cmd.BadType? || cmd.Unrecognized?
  }

  lemma {:induction false} HarmlessCommand(c: Libc, t: Plist, cmd: Command, file: Option<Plist>, order: seq<string>)
    requires OrdersKeys(order, file) && Harmless(cmd)
    ensures CommandEffect(c, t, cmd, file, order) == Effect(t, if cmd.Exit? then Ended else Ignored)
  {
  }

  lemma {:induction false} HarmlessLine(c: Libc, t: Plist, q: Request, cmd: Command)
    requires Answered(q) && ParseLine(q.line) == cmd && Harmless(cmd)
    ensures LineEffect(c, t, q) == Effect(t, if cmd.Exit? then Ended else Ignored)
  {
    LineIs(c, t, q, cmd);
    HarmlessCommand(c, t, cmd, q.file, q.order);
  }

  /** A session goes on from the tree that its first part leaves, unless that part ended it. */
  lemma {:induction false} SessionInParts(c: Libc, t: Plist, a: seq<Request>, b: seq<Request>)
    requires (forall i | 0 <= i < |a| :: Answered(a[i])) && (forall i | 0 <= i < |b| :: Answered(b[i]))
    ensures var e := RunEffect(c, t, a);
            RunEffect(c, t, a + b) == if e.report == Done then RunEffect(c, e.tree, b) else e
    decreases |a|
  {
    if a == [] {
      assert a + b == b;
    } else {
      var e := LineEffect(c, t, a[0]);
      assert (a + b)[0] == a[0] && (a + b)[1..] == a[1..] + b;
      if e.report != Ended && e.report != Trap {
        SessionInParts(c, e.tree, a[1..], b);
      }
    }
  }

  /** No line behind an Exit line is looked at. */
  lemma ExitEnds(c: Libc, t: Plist, a: seq<Request>, w: string, rest: string, b: seq<Request>)
    requires (forall i | 0 <= i < |a| :: Answered(a[i])) && (forall i | 0 <= i < |b| :: Answered(b[i]))
    requires RunEffect(c, t, a).report == Done && Follows(rest)
    requires EqIgnoreCase(w, "Exit") || EqIgnoreCase(w, "Quit") || EqIgnoreCase(w, "Bye")
    ensures var exit := Request(w + rest, None, []);
            RunEffect(c, t, a + ([exit] + b)) == Effect(RunEffect(c, t, a).tree, Ended)
  {
    var exit := Request(w + rest, None, []);
    assert ParseLine(exit.line) == Exit by {
      ExitLine(w, rest);
    }
    assert ([exit] + b)[0] == exit;
    assert forall i | 0 <= i < |[exit] + b| :: Answered(([exit] + b)[i]);
    SessionInParts(c, t, a, [exit] + b);
    LineIs(c, RunEffect(c, t, a).tree, exit, Exit);
  }

  /** Words that a boolean is true for. */
  lemma TrueWords(c: Libc, text: string)
    ensures ParseValue(c, BoolType, text) ==
            Some(Bool(EqIgnoreCase(text, "true") || EqIgnoreCase(text, "YES") || text == "1"))
    ensures ParseValue(c, BoolType, "TRUE") == ParseValue(c, BoolType, "yes") == ParseValue(c, BoolType, "1") ==
            Some(Bool(true))
    ensures ParseValue(c, BoolType, "false") == ParseValue(c, BoolType, "") == Some(Bool(false))
  {
  }

  /** Add with a container type makes an empty container, whatever text follows; with a scalar type, a scalar of it. */
  lemma NewValues(c: Libc, ty: PropertyType, text: string)
    ensures NewValue(c, ArrayType, text) == Some(Array([])) && NewValue(c, DictType, text) == Some(Dict(map[]))
    ensures var v := NewValue(c, ty, text);
            v.Some? && ty != ArrayType && ty != DictType ==>
              && v.value.Leaf?
              && match ty
                 case StringType => v.value.atom.Str?
                 case BoolType => v.value.atom.Bool?
                 case IntegerType => c.toInteger(text) == Some(v.value.atom.n)
                 case RealType => c.toReal(text) == Some(v.value.atom.x)
                 case DateType => c.toDate(text) == Some(v.value.atom.at)
                 case DataType => v.value.atom == Data(text)
                 case _ => false
    ensures ParseValue(c, DataType, text).None? <==> ParseValue(c, StringType, text).None?
  {
  }
}
