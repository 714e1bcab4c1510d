/** From a command line to a command, and back from a value to a line that writes it. */
module PlistCommands {
  import opened Options
  import opened PlistTree
  import opened PlistText

  datatype Command =
    | Exit
    | Help
    | Save
    | Revert
    | Print(what: Option<string>)
    | Clear
    | SetValue(entry: string, text: string)
    | Add(entry: string, ty: PropertyType, text: string)
    | Copy(src: string, dst: string)
    | Delete(entry: string)
    | Merge(path: string, dest: Option<string>)
    | Import(entry: string, path: string)
    | Missing        // "Missing arguments"
    | BadWord        // a word with unterminated quotes
    | BadType        // "Unrecognized Type"
    | Unrecognized

  /** A case-insensitive command name followed by a space or the end; then the first word after it. */
  function IsCommand(line: string, name: string): Option<Option<string>> {
    if |line| >= |name| && EqIgnoreCase(line[..|name|], name) && (|line| == |name| || line[|name|] == ' ')
    then Some(NextWord(line[|name|..]))
    else None
  }

  function OneOf(line: string, a: string, b: string): Option<Option<string>> {
    if IsCommand(line, a).Some? then IsCommand(line, a) else IsCommand(line, b)
  }

  function ParseType(t: string): PropertyType {
    if EqIgnoreCase(t, "string") then StringType
    else if EqIgnoreCase(t, "array") then ArrayType
    else if EqIgnoreCase(t, "dict") then DictType
    else if EqIgnoreCase(t, "bool") then BoolType
    else if EqIgnoreCase(t, "real") then RealType
    else if EqIgnoreCase(t, "integer") then IntegerType
    else if EqIgnoreCase(t, "date") then DateType
    else if EqIgnoreCase(t, "data") then DataType
    else UnknownType
  }

  function OrEmpty(s: Option<string>): string {
    if s.Some? then s.value else ""
  }

  function ParseSet(next: Option<string>): Command {
    if next.None? then Missing
    else match GetWord(next.value)
      case None => BadWord
      case Some(w) => SetValue(w.text, OrEmpty(w.rest))
  }

  function ParseAdd(next: Option<string>): Command {
    if next.None? then Missing
    else match GetWord(next.value)
      case None => BadWord
      case Some(w) =>
        if w.rest.None? then Missing
        else match GetWord(w.rest.value)
          case None => BadWord
          case Some(ty) =>
            if ParseType(ty.text) == UnknownType then BadType
            else Add(w.text, ParseType(ty.text), OrEmpty(ty.rest))
  }

  /** The two-word commands: both words must be there. */
  function ParseTwo(next: Option<string>): Option<(string, string)> {
    if next.None? then None
    else match GetWord(next.value)
      case None => None
      case Some(w) =>
        if w.rest.None? then None
        else match GetWord(w.rest.value)
          case None => None
          case Some(u) => Some((w.text, u.text))
  }

  function WhyNotTwo(next: Option<string>): Command {
    if next.None? then Missing
    else match GetWord(next.value)
      case None => BadWord
      case Some(w) => if w.rest.None? then Missing else BadWord
  }

  function ParseCopy(next: Option<string>): Command {
    match ParseTwo(next)
    case None => WhyNotTwo(next)
    case Some((a, b)) => Copy(a, b)
  }

  function ParseImport(next: Option<string>): Command {
    match ParseTwo(next)
    case None => WhyNotTwo(next)
    case Some((a, b)) => Import(a, b)
  }

  function ParseMerge(next: Option<string>): Command {
    if next.None? then Missing
    else match GetWord(next.value)
      case None => BadWord
      case Some(w) => Merge(w.text, w.rest)
  }

  /** The tests for the commands that edit. */
  function ParseEdit(line: string): Command {
    if OneOf(line, "Set", "=").Some? then ParseSet(OneOf(line, "Set", "=").value)
    else if OneOf(line, "Add", "+").Some? then ParseAdd(OneOf(line, "Add", "+").value)
    else if OneOf(line, "Copy", "cp").Some? then ParseCopy(OneOf(line, "Copy", "cp").value)
    else if OneOf(line, "Delete", "rm").Some? || IsCommand(line, "-").Some? then
      var next := if OneOf(line, "Delete", "rm").Some? then OneOf(line, "Delete", "rm").value
          else IsCommand(line, "-").value;
      // The rest of the line is the entry as it stands: a quoted entry keeps its quotes.
      if next.None? then Missing else Delete(next.value)
    else if IsCommand(line, "Merge").Some? then ParseMerge(IsCommand(line, "Merge").value)
    else if IsCommand(line, "Import").Some? then ParseImport(IsCommand(line, "Import").value)
    else Unrecognized
  }

  /** The chain of tests that finds the command of a line. */
  function ParseLine(line: string): Command {
    if IsCommand(line, "Exit").Some? || IsCommand(line, "Quit").Some? || IsCommand(line, "Bye").Some? then Exit
    else if IsCommand(line, "Help").Some? then Help
    else if IsCommand(line, "Save").Some? then Save
    else if IsCommand(line, "Revert").Some? then Revert
    else if OneOf(line, "Print", "ls").Some? then Print(OneOf(line, "Print", "ls").value)
    else if IsCommand(line, "Clear").Some? then Clear
    else ParseEdit(line)
  }

  // ---- The parser at work -------------------------------------------------------------------------

  method ReadSet(next: Option<string>) returns (cmd: Command)
    ensures cmd == ParseSet(next)
  {
    if next.None? {
      return Missing;
    }
    var w := ReadWord(next.value);
    cmd := if w.None? then BadWord else SetValue(w.value.text, OrEmpty(w.value.rest));
  }

  method ReadAdd(next: Option<string>) returns (cmd: Command)
    ensures cmd == ParseAdd(next)
  {
    if next.None? {
      return Missing;
    }
    var w := ReadWord(next.value);
    if w.None? {
      return BadWord;
    }
    if w.value.rest.None? {
      return Missing;
    }
    var ty := ReadWord(w.value.rest.value);
    if ty.None? {
      return BadWord;
    }
    var t := ParseType(ty.value.text);
    cmd := if t == UnknownType then BadType else Add(w.value.text, t, OrEmpty(ty.value.rest));
  }

  /** Two words, or what is wrong with them. */
  method ReadTwo(next: Option<string>) returns (words: Option<(string, string)>, wrong: Command)
    ensures words == ParseTwo(next)
    ensures words.None? ==> wrong == WhyNotTwo(next)
  {
    words, wrong := None, Missing;
    if next.None? {
      return;
    }
    var w := ReadWord(next.value);
    if w.None? {
      wrong := BadWord;
      return;
    }
    if w.value.rest.None? {
      return;
    }
    var u := ReadWord(w.value.rest.value);
    if u.None? {
      wrong := BadWord;
      return;
    }
    words := Some((w.value.text, u.value.text));
  }

  method ReadMerge(next: Option<string>) returns (cmd: Command)
    ensures cmd == ParseMerge(next)
  {
    if next.None? {
      return Missing;
    }
    var w := ReadWord(next.value);
    cmd := if w.None? then BadWord else Merge(w.value.text, w.value.rest);
  }

  /** The chain of tests, with the words of a line read one by one. */
  method ReadLine(line: string) returns (cmd: Command)
    ensures cmd == ParseLine(line)
  {
    if IsCommand(line, "Exit").Some? || IsCommand(line, "Quit").Some? || IsCommand(line, "Bye").Some? {
      return Exit;
    } else if IsCommand(line, "Help").Some? {
      return Help;
    } else if IsCommand(line, "Save").Some? {
      return Save;
    } else if IsCommand(line, "Revert").Some? {
      return Revert;
    } else if OneOf(line, "Print", "ls").Some? {
      return Print(OneOf(line, "Print", "ls").value);
    } else if IsCommand(line, "Clear").Some? {
      return Clear;
    }
    cmd := ReadEdit(line);
  }

  method ReadEdit(line: string) returns (cmd: Command)
    ensures cmd == ParseEdit(line)
  {
    var assign, add, copy := OneOf(line, "Set", "="), OneOf(line, "Add", "+"), OneOf(line, "Copy", "cp");
    var delete, dash := OneOf(line, "Delete", "rm"), IsCommand(line, "-");
    var merge, imp := IsCommand(line, "Merge"), IsCommand(line, "Import");
    if assign.Some? {
      cmd := ReadSet(assign.value);
    } else if add.Some? {
      cmd := ReadAdd(add.value);
    } else if copy.Some? {
      var words, wrong := ReadTwo(copy.value);
      cmd := if words.None? then wrong else Copy(words.value.0, words.value.1);
    } else if delete.Some? || dash.Some? {
      var next := if delete.Some? then delete.value else dash.value;
      cmd := if next.None? then Missing else Delete(next.value);
    } else if merge.Some? {
      cmd := ReadMerge(merge.value);
    } else if imp.Some? {
      var words, wrong := ReadTwo(imp.value);
      cmd := if words.None? then wrong else Import(words.value.0, words.value.1);
    } else {
      cmd := Unrecognized;
    }
  }

  // ---- Lines that write a given value -----------------------------------------------------------

  /** Lines whose first characters differ from a command's are not that command. */
  lemma OtherCommand(line: string, name: string, i: nat)
    requires i < |name| && (i < |line| ==> Lower(line[i]) != Lower(name[i]))
    ensures IsCommand(line, name).None?
  {
    if |line| >= |name| {
      assert line[..|name|][i] == line[i];
    }
  }

  lemma ThisCommand(name: string, rest: string)
    requires rest != [] && rest[0] == ' '
    ensures IsCommand(name + rest, name) == Some(NextWord(rest))
  {
    assert (name + rest)[..|name|] == name && (name + rest)[|name|..] == rest;
  }

  lemma NextWordAt(word: string)
    requires word != [] && !IsSpace(word[0])
    ensures NextWord(" " + word) == Some(word)
  {
    assert SkipSpaces(word) == word;
    assert (" " + word)[0] == ' ' && (" " + word)[1..] == word;
  }

  lemma SetLine(args: string)
    requires args != [] && !IsSpace(args[0])
    ensures ParseLine("Set" + (" " + args)) == ParseSet(Some(args))
  {
    var line := "Set" + (" " + args);
    ThisCommand("Set", " " + args);
    NextWordAt(args);
    OtherCommand(line, "Exit", 0);
    OtherCommand(line, "Quit", 0);
    OtherCommand(line, "Bye", 0);
    OtherCommand(line, "Help", 0);
    OtherCommand(line, "Save", 1);
    OtherCommand(line, "Revert", 0);
    OtherCommand(line, "Print", 0);
    OtherCommand(line, "ls", 0);
    OtherCommand(line, "Clear", 0);
  }

  lemma AddLine(args: string)
    requires args != [] && !IsSpace(args[0])
    ensures ParseLine("Add" + (" " + args)) == ParseAdd(Some(args))
  {
    var line := "Add" + (" " + args);
    ThisCommand("Add", " " + args);
    NextWordAt(args);
    OtherCommand(line, "Exit", 0);
    OtherCommand(line, "Quit", 0);
    OtherCommand(line, "Bye", 0);
    OtherCommand(line, "Help", 0);
    OtherCommand(line, "Save", 0);
    OtherCommand(line, "Revert", 0);
    OtherCommand(line, "Print", 0);
    OtherCommand(line, "ls", 0);
    OtherCommand(line, "Clear", 0);
    OtherCommand(line, "Set", 0);
    OtherCommand(line, "=", 0);
  }

  /** `Set` with a quoted entry and a quoted value says exactly that entry and that value. */
  lemma SetQuoted(entry: string, v: string)
    requires Paired(entry)
    ensures ParseLine("Set" + (" " + (QuoteWord(entry) + (" " + Quote(v))))) == SetValue(entry, Quote(v))
    ensures Unquote(Quote(v)) == Some(v)
  {
    var args := QuoteWord(entry) + (" " + Quote(v));
    assert args[0] == '"';
    SetLine(args);
    QuotedWordReads(entry, " " + Quote(v));
    NextWordAt(Quote(v));
    UnquoteQuote(v);
  }

  /** `Add` of a string with a quoted entry and a quoted value. */
  lemma AddQuoted(entry: string, v: string)
    requires Paired(entry)
    ensures ParseLine("Add" + (" " + (QuoteWord(entry) + (" " + ("string" + (" " + Quote(v)))))))
            == Add(entry, StringType, Quote(v))
  {
    var value := " " + Quote(v);
    var typed := "string" + value;
    var args := QuoteWord(entry) + (" " + typed);
    assert args[0] == '"';
    AddLine(args);
    QuotedWordReads(entry, " " + typed);
    NextWordAt(typed);
    TypeWord(value);
    NextWordAt(Quote(v));
  }

  lemma TypeWord(rest: string)
    requires rest != [] && rest[0] == ' '
    ensures GetWord("string" + rest) == Some(Word("string", NextWord(rest)))
  {
    var cmd := "string" + rest;
    assert cmd[6] == ' ' && cmd[..6] == "string" && cmd[6..] == rest;
    var p := IndexOf(cmd, ' ');
    assert p.Some?;
    assert forall k | 0 <= k < 6 :: cmd[k] == "string"[k];
    assert p.value == 6;
  }
}
