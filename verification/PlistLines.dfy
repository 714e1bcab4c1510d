/** Which command a line is, for every spelling of its name and every way to write its words. */
module PlistLines {
  import opened Options
  import opened PlistTree
  import opened PlistText
  import opened PlistCommands

  // ---- Names ----------------------------------------------------------------------------------------

  /** Letters are compared without their case, everything else as it is. */
  lemma LowerLetters(k: nat, c: char)
    ensures k < 26 ==> Lower('A' + k as char) == 'a' + k as char && Lower('a' + k as char) == 'a' + k as char
    ensures !('A' <= c <= 'Z') ==> Lower(c) == c
  {
  }

  /** What may follow a command name: nothing, or a space. */
  predicate Follows(rest: string) { rest == [] || rest[0] == ' ' }

  /** The names differ in their first or second letter. */
  predicate Distinct(a: string, b: string) {
    && a != [] && b != []
    && (Lower(a[0]) != Lower(b[0]) || (|a| > 1 && |b| > 1 && Lower(a[1]) != Lower(b[1])))
  }

  lemma Spelled(w: string, rest: string, name: string)
    requires EqIgnoreCase(w, name) && Follows(rest)
    ensures IsCommand(w + rest, name) == Some(NextWord(rest))
  {
    assert (w + rest)[..|name|] == w && (w + rest)[|name|..] == rest;
  }

  lemma SpelledOther(w: string, rest: string, name: string, other: string)
    requires EqIgnoreCase(w, name) && Distinct(name, other)
    ensures IsCommand(w + rest, other).None?
  {
    var i := if Lower(name[0]) != Lower(other[0]) then 0 else 1;
    assert (w + rest)[i] == w[i];
    OtherCommand(w + rest, other, i);
  }

  // ---- Lines without words --------------------------------------------------------------------------

  /** A name that is none of those tested before the editing commands. */
  predicate NamesEdit(name: string) {
    && Distinct(name, "Exit") && Distinct(name, "Quit") && Distinct(name, "Bye") && Distinct(name, "Help")
    && Distinct(name, "Save") && Distinct(name, "Revert") && Distinct(name, "Print") && Distinct(name, "ls")
    && Distinct(name, "Clear")
  }

  lemma EditTests(w: string, rest: string, name: string)
    requires EqIgnoreCase(w, name) && NamesEdit(name)
    ensures ParseLine(w + rest) == ParseEdit(w + rest)
  {
    SpelledOther(w, rest, name, "Exit");
    SpelledOther(w, rest, name, "Quit");
    SpelledOther(w, rest, name, "Bye");
    SpelledOther(w, rest, name, "Help");
    SpelledOther(w, rest, name, "Save");
    SpelledOther(w, rest, name, "Revert");
    SpelledOther(w, rest, name, "Print");
    SpelledOther(w, rest, name, "ls");
    SpelledOther(w, rest, name, "Clear");
  }

  lemma ExitLine(w: string, rest: string)
    requires (EqIgnoreCase(w, "Exit") || EqIgnoreCase(w, "Quit") || EqIgnoreCase(w, "Bye")) && Follows(rest)
    ensures ParseLine(w + rest) == Exit
  {
    if EqIgnoreCase(w, "Exit") {
      Spelled(w, rest, "Exit");
    } else if EqIgnoreCase(w, "Quit") {
      Spelled(w, rest, "Quit");
    } else {
      Spelled(w, rest, "Bye");
    }
  }

  lemma HelpLine(w: string, rest: string)
    requires EqIgnoreCase(w, "Help") && Follows(rest)
    ensures ParseLine(w + rest) == Help
  {
    SpelledOther(w, rest, "Help", "Exit");
    SpelledOther(w, rest, "Help", "Quit");
    SpelledOther(w, rest, "Help", "Bye");
    Spelled(w, rest, "Help");
  }

  lemma SaveLine(w: string, rest: string)
    requires EqIgnoreCase(w, "Save") && Follows(rest)
    ensures ParseLine(w + rest) == Save
  {
    SpelledOther(w, rest, "Save", "Exit");
    SpelledOther(w, rest, "Save", "Quit");
    SpelledOther(w, rest, "Save", "Bye");
    SpelledOther(w, rest, "Save", "Help");
    Spelled(w, rest, "Save");
  }

  lemma RevertLine(w: string, rest: string)
    requires EqIgnoreCase(w, "Revert") && Follows(rest)
    ensures ParseLine(w + rest) == Revert
  {
    SpelledOther(w, rest, "Revert", "Exit");
    SpelledOther(w, rest, "Revert", "Quit");
    SpelledOther(w, rest, "Revert", "Bye");
    SpelledOther(w, rest, "Revert", "Help");
    SpelledOther(w, rest, "Revert", "Save");
    Spelled(w, rest, "Revert");
  }

  lemma BeforePrint(w: string, rest: string, name: string)
    requires EqIgnoreCase(w, name)
    requires && Distinct(name, "Exit") && Distinct(name, "Quit") && Distinct(name, "Bye") && Distinct(name, "Help")
             && Distinct(name, "Save") && Distinct(name, "Revert")
    ensures var next := OneOf(w + rest, "Print", "ls");
            ParseLine(w + rest) ==
            if next.Some? then Print(next.value)
            else if IsCommand(w + rest, "Clear").Some? then Clear
            else ParseEdit(w + rest)
  {
    SpelledOther(w, rest, name, "Exit");
    SpelledOther(w, rest, name, "Quit");
    SpelledOther(w, rest, name, "Bye");
    SpelledOther(w, rest, name, "Help");
    SpelledOther(w, rest, name, "Save");
    SpelledOther(w, rest, name, "Revert");
  }

  lemma PrintLine(w: string, rest: string)
    requires (EqIgnoreCase(w, "Print") || EqIgnoreCase(w, "ls")) && Follows(rest)
    ensures ParseLine(w + rest) == Print(NextWord(rest))
  {
    if EqIgnoreCase(w, "Print") {
      BeforePrint(w, rest, "Print");
      Spelled(w, rest, "Print");
    } else {
      BeforePrint(w, rest, "ls");
      SpelledOther(w, rest, "ls", "Print");
      Spelled(w, rest, "ls");
    }
  }

  lemma ClearLine(w: string, rest: string)
    requires EqIgnoreCase(w, "Clear") && Follows(rest)
    ensures ParseLine(w + rest) == Clear
  {
    BeforePrint(w, rest, "Clear");
    SpelledOther(w, rest, "Clear", "Print");
    SpelledOther(w, rest, "Clear", "ls");
    Spelled(w, rest, "Clear");
  }

  // ---- Lines that edit ------------------------------------------------------------------------------

  lemma SetWords(w: string, rest: string)
    requires (EqIgnoreCase(w, "Set") || EqIgnoreCase(w, "=")) && Follows(rest)
    ensures ParseLine(w + rest) == ParseSet(NextWord(rest))
  {
    if EqIgnoreCase(w, "Set") {
      EditTests(w, rest, "Set");
      Spelled(w, rest, "Set");
    } else {
      EditTests(w, rest, "=");
      SpelledOther(w, rest, "=", "Set");
      Spelled(w, rest, "=");
    }
  }

  lemma NotSet(w: string, rest: string, name: string)
    requires EqIgnoreCase(w, name) && Distinct(name, "Set") && Distinct(name, "=")
    ensures OneOf(w + rest, "Set", "=").None?
  {
    SpelledOther(w, rest, name, "Set");
    SpelledOther(w, rest, name, "=");
  }

  lemma AddWords(w: string, rest: string)
    requires (EqIgnoreCase(w, "Add") || EqIgnoreCase(w, "+")) && Follows(rest)
    ensures ParseLine(w + rest) == ParseAdd(NextWord(rest))
  {
    if EqIgnoreCase(w, "Add") {
      EditTests(w, rest, "Add");
      NotSet(w, rest, "Add");
      Spelled(w, rest, "Add");
    } else {
      EditTests(w, rest, "+");
      NotSet(w, rest, "+");
      SpelledOther(w, rest, "+", "Add");
      Spelled(w, rest, "+");
    }
  }

  lemma NotAdd(w: string, rest: string, name: string)
    requires EqIgnoreCase(w, name) && Distinct(name, "Set") && Distinct(name, "=")
    requires Distinct(name, "Add") && Distinct(name, "+")
    ensures OneOf(w + rest, "Set", "=").None? && OneOf(w + rest, "Add", "+").None?
  {
    NotSet(w, rest, name);
    SpelledOther(w, rest, name, "Add");
    SpelledOther(w, rest, name, "+");
  }

  lemma CopyWords(w: string, rest: string)
    requires (EqIgnoreCase(w, "Copy") || EqIgnoreCase(w, "cp")) && Follows(rest)
    ensures ParseLine(w + rest) == ParseCopy(NextWord(rest))
  {
    if EqIgnoreCase(w, "Copy") {
      EditTests(w, rest, "Copy");
      NotAdd(w, rest, "Copy");
      Spelled(w, rest, "Copy");
    } else {
      EditTests(w, rest, "cp");
      NotAdd(w, rest, "cp");
      SpelledOther(w, rest, "cp", "Copy");
      Spelled(w, rest, "cp");
    }
  }

  lemma NotCopy(w: string, rest: string, name: string)
    requires EqIgnoreCase(w, name) && Distinct(name, "Set") && Distinct(name, "=")
    requires Distinct(name, "Add") && Distinct(name, "+") && Distinct(name, "Copy") && Distinct(name, "cp")
    ensures OneOf(w + rest, "Set", "=").None? && OneOf(w + rest, "Add", "+").None?
            && OneOf(w + rest, "Copy", "cp").None?
  {
    NotAdd(w, rest, name);
    SpelledOther(w, rest, name, "Copy");
    SpelledOther(w, rest, name, "cp");
  }

  /** Delete takes the rest of the line as it stands. */
  lemma DeleteLine(w: string, rest: string)
    requires (EqIgnoreCase(w, "Delete") || EqIgnoreCase(w, "rm") || EqIgnoreCase(w, "-")) && Follows(rest)
    ensures ParseLine(w + rest) == if NextWord(rest).None? then Missing else Delete(NextWord(rest).value)
  {
    if EqIgnoreCase(w, "Delete") {
      EditTests(w, rest, "Delete");
      NotCopy(w, rest, "Delete");
      Spelled(w, rest, "Delete");
    } else if EqIgnoreCase(w, "rm") {
      EditTests(w, rest, "rm");
      NotCopy(w, rest, "rm");
      SpelledOther(w, rest, "rm", "Delete");
      Spelled(w, rest, "rm");
    } else {
      EditTests(w, rest, "-");
      NotCopy(w, rest, "-");
      SpelledOther(w, rest, "-", "Delete");
      SpelledOther(w, rest, "-", "rm");
      Spelled(w, rest, "-");
    }
  }

  lemma NotDelete(w: string, rest: string, name: string)
    requires EqIgnoreCase(w, name) && Distinct(name, "Delete") && Distinct(name, "rm") && Distinct(name, "-")
    ensures OneOf(w + rest, "Delete", "rm").None? && IsCommand(w + rest, "-").None?
  {
    SpelledOther(w, rest, name, "Delete");
    SpelledOther(w, rest, name, "rm");
    SpelledOther(w, rest, name, "-");
  }

  lemma MergeWords(w: string, rest: string)
    requires EqIgnoreCase(w, "Merge") && Follows(rest)
    ensures ParseLine(w + rest) == ParseMerge(NextWord(rest))
  {
    EditTests(w, rest, "Merge");
    NotCopy(w, rest, "Merge");
    NotDelete(w, rest, "Merge");
    Spelled(w, rest, "Merge");
  }

  lemma ImportWords(w: string, rest: string)
    requires EqIgnoreCase(w, "Import") && Follows(rest)
    ensures ParseLine(w + rest) == ParseImport(NextWord(rest))
  {
    EditTests(w, rest, "Import");
    NotCopy(w, rest, "Import");
    NotDelete(w, rest, "Import");
    SpelledOther(w, rest, "Import", "Merge");
    Spelled(w, rest, "Import");
  }

  // ---- Words ----------------------------------------------------------------------------------------

  /** A way to write a word: quoted, or as it is when it has no space and no quote in front. */
  predicate Writes(x: string, word: string) {
    || (x == QuoteWord(word) && Paired(word))
    || (x == word && word != [] && word[0] != '"' && !IsSpace(word[0]) && ' ' !in word)
  }

  lemma WrittenWord(x: string, word: string, rest: string)
    requires Writes(x, word) && Follows(rest)
    ensures GetWord(x + rest) == Some(Word(word, NextWord(rest)))
    ensures x != [] && !IsSpace(x[0])
  {
    if x == QuoteWord(word) && Paired(word) {
      QuotedWordReads(word, rest);
    } else {
      PlainWord(word, rest);
    }
  }

  lemma PlainWord(word: string, rest: string)
    requires word != [] && word[0] != '"' && ' ' !in word && Follows(rest)
    ensures GetWord(word + rest) == Some(Word(word, NextWord(rest)))
  {
    var cmd := word + rest;
    assert forall k | 0 <= k < |word| :: cmd[k] == word[k] && word[k] in word;
    if rest == [] {
      assert cmd == word && NextWord(rest) == None;
    } else {
      assert cmd[|word|] == ' ' && IndexOf(cmd, ' ') == Some(|word|);
      assert cmd[..|word|] == word && cmd[|word|..] == rest;
    }
  }

  /** The first word behind a space. */
  lemma Argument(x: string, rest: string)
    requires x != [] && !IsSpace(x[0])
    ensures Follows(" " + x + rest) && NextWord(" " + x + rest) == Some(x + rest)
  {
    assert " " + x + rest == " " + (x + rest);
    NextWordAt(x + rest);
  }

  lemma LastArgument(x: string)
    requires x != [] && !IsSpace(x[0])
    ensures Follows(" " + x) && NextWord(" " + x) == Some(x)
  {
    NextWordAt(x);
  }

  /** Blanks in front of a word do not count, however many there are; blanks alone are no word. */
  lemma {:induction false} BlanksSkipped(blanks: string, x: string)
    requires (forall c | c in blanks :: c in " \t\n\r\U{000C}") && (x == [] || x[0] !in " \t\n\r\U{000C}")
    ensures NextWord(blanks + x) == if x == [] then None else Some(x)
  {
    if blanks == [] {
      assert blanks + x == x;
    } else {
      assert blanks[0] in blanks && (blanks + x)[1..] == blanks[1..] + x;
      BlanksSkipped(blanks[1..], x);
    }
  }

  /** A Copy line names its source first and its destination second. */
  lemma CopyLine(w: string, x: string, src: string, y: string, dst: string)
    requires (EqIgnoreCase(w, "Copy") || EqIgnoreCase(w, "cp")) && Writes(x, src) && Writes(y, dst)
    ensures ParseLine(w + (" " + x + (" " + y))) == Copy(src, dst)
  {
    TwoWords(x, src, y, dst);
    CopyWords(w, " " + x + (" " + y));
  }

  lemma TwoWords(x: string, a: string, y: string, b: string)
    requires Writes(x, a) && Writes(y, b)
    ensures var rest := " " + x + (" " + y);
            Follows(rest) && ParseTwo(NextWord(rest)) == Some((a, b))
  {
    WrittenWord(y, b, "");
    assert y + "" == y;
    LastArgument(y);
    WrittenWord(x, a, " " + y);
    Argument(x, " " + y);
  }

  /** An Import line names its entry first and its file second. */
  lemma ImportLine(w: string, x: string, entry: string, y: string, path: string)
    requires EqIgnoreCase(w, "Import") && Writes(x, entry) && Writes(y, path)
    ensures ParseLine(w + (" " + x + (" " + y))) == Import(entry, path)
  {
    TwoWords(x, entry, y, path);
    ImportWords(w, " " + x + (" " + y));
  }

  /** A Merge line names its file; what follows it is the destination as it stands, or there is none. */
  lemma MergeLine(w: string, x: string, path: string, rest: string)
    requires EqIgnoreCase(w, "Merge") && Writes(x, path) && Follows(rest)
    ensures ParseLine(w + (" " + x + rest)) == Merge(path, NextWord(rest))
  {
    WrittenWord(x, path, rest);
    Argument(x, rest);
    MergeWords(w, " " + x + rest);
  }

  /** Any Set line: the rest behind the entry is the text, as it stands. */
  lemma SetLineOf(w: string, x: string, entry: string, rest: string)
    requires (EqIgnoreCase(w, "Set") || EqIgnoreCase(w, "=")) && Writes(x, entry) && Follows(rest)
    ensures ParseLine(w + (" " + x + rest)) == SetValue(entry, OrEmpty(NextWord(rest)))
  {
    WrittenWord(x, entry, rest);
    Argument(x, rest);
    SetWords(w, " " + x + rest);
  }

  /** The type that a word names. */
  function TypeNames(): map<string, PropertyType> {
    map["string" := StringType, "array" := ArrayType, "dict" := DictType, "bool" := BoolType,
        "real" := RealType, "integer" := IntegerType, "date" := DateType, "data" := DataType]
  }

  /** A type word in any spelling names its own type; any other word names none. */
  lemma TypeOfWord(w: string, name: string)
    ensures name in TypeNames() && EqIgnoreCase(w, name) ==> ParseType(w) == TypeNames()[name]
    ensures ParseType(w) == UnknownType <==> forall n | n in TypeNames() :: !EqIgnoreCase(w, n)
  {
    assert "string" in TypeNames() && "array" in TypeNames() && "dict" in TypeNames() && "bool" in TypeNames();
    assert "real" in TypeNames() && "integer" in TypeNames() && "date" in TypeNames() && "data" in TypeNames();
    if name in TypeNames() && EqIgnoreCase(w, name) {
      NamesApart(w, name);
    }
  }

  /** No word spells two of the type names. */
  lemma NamesApart(w: string, name: string)
    requires name in TypeNames() && EqIgnoreCase(w, name)
    ensures forall n | n in TypeNames() && n != name :: !EqIgnoreCase(w, n)
  {
    forall n | n in TypeNames() && n != name
      ensures !EqIgnoreCase(w, n)
    {
      if |n| == |name| {
        var i := if n[0] != name[0] then 0 else if n[3] != name[3] then 3 else 1;
        assert n[i] != name[i] && Lower(n[i]) == n[i] && Lower(name[i]) == name[i];
      }
    }
  }

  /** An Add line with any known type: entry, type, and the rest of the line as the text. */
  lemma AddLineOf(w: string, x: string, entry: string, word: string, name: string, rest: string)
    requires (EqIgnoreCase(w, "Add") || EqIgnoreCase(w, "+")) && Writes(x, entry) && Follows(rest)
    requires name in TypeNames() && EqIgnoreCase(word, name) && Writes(word, word)
    ensures ParseLine(w + (" " + x + (" " + word + rest))) == Add(entry, TypeNames()[name], OrEmpty(NextWord(rest)))
  {
    WrittenWord(word, word, rest);
    Argument(word, rest);
    WrittenWord(x, entry, " " + word + rest);
    Argument(x, " " + word + rest);
    TypeOfWord(word, name);
    AddWords(w, " " + x + (" " + word + rest));
  }

  // ---- Refusals -------------------------------------------------------------------------------------

  /** The names of the commands that read one word, and of those that read a second. */
  predicate ReadsWord(name: string) { name == "Set" || name == "=" || name == "Merge" || ReadsTwo(name) }

  predicate ReadsTwo(name: string) {
    name == "Add" || name == "+" || name == "Copy" || name == "cp" || name == "Import"
  }

  /** What is made of the words behind the name. */
  function ParseWords(name: string, next: Option<string>): Command
    requires ReadsWord(name)
  {
    if name == "Set" || name == "=" then ParseSet(next)
    else if name == "Add" || name == "+" then ParseAdd(next)
    else if name == "Copy" || name == "cp" then ParseCopy(next)
    else if name == "Merge" then ParseMerge(next)
    else ParseImport(next)
  }

  lemma WordsOf(w: string, name: string, rest: string)
    requires ReadsWord(name) && EqIgnoreCase(w, name) && Follows(rest)
    ensures ParseLine(w + rest) == ParseWords(name, NextWord(rest))
  {
    if name == "Set" || name == "=" {
      SetWords(w, rest);
    } else if name == "Add" || name == "+" {
      AddWords(w, rest);
    } else if name == "Copy" || name == "cp" {
      CopyWords(w, rest);
    } else if name == "Merge" {
      MergeWords(w, rest);
    } else {
      ImportWords(w, rest);
    }
  }

  /** A command that needs words and has none. */
  lemma NoWords(w: string, name: string, rest: string)
    requires ReadsWord(name) && EqIgnoreCase(w, name) && Follows(rest) && NextWord(rest).None?
    ensures ParseLine(w + rest) == Missing
  {
    WordsOf(w, name, rest);
  }

  /** A command that needs two words and has one. */
  lemma OneWord(w: string, name: string, x: string, word: string)
    requires ReadsTwo(name) && EqIgnoreCase(w, name) && Writes(x, word)
    ensures ParseLine(w + (" " + x)) == Missing
  {
    assert GetWord(x) == Some(Word(word, None)) && x != [] && !IsSpace(x[0]) by {
      WrittenWord(x, word, "");
      assert x + "" == x;
    }
    LastArgument(x);
    WordsOf(w, name, " " + x);
    NoSecond(name, x, word);
  }

  lemma {:induction false} NeverClosed(s: string)
    requires '"' !in s
    ensures !ScanQuoted(s).closed && (s != [] ==> ScanQuoted(s).text != [])
    decreases |s|
  {
    if s != [] {
      assert s[0] in s;
      if s[0] == '\\' && |s| > 1 {
        NeverClosed(s[2..]);
      } else {
        NeverClosed(s[1..]);
      }
    }
  }

  /** A quote that is not closed is no word. */
  lemma UnclosedWord(u: string)
    requires u != [] && '"' !in u
    ensures GetWord("\"" + u).None?
  {
    assert ("\"" + u)[1..] == u;
    NeverClosed(u);
  }

  /** A first word with an unclosed quote: the command does nothing. */
  lemma UnclosedLine(w: string, name: string, u: string)
    requires ReadsWord(name) && EqIgnoreCase(w, name) && u != [] && '"' !in u
    ensures ParseLine(w + (" " + ("\"" + u))) == BadWord
  {
    var x := "\"" + u;
    UnclosedWord(u);
    LastArgument(x);
    WordsOf(w, name, " " + x);
    BadFirst(name, x);
  }

  /** And so for a second word. */
  lemma UnclosedSecond(w: string, name: string, x: string, word: string, u: string)
    requires ReadsTwo(name) && EqIgnoreCase(w, name) && Writes(x, word) && u != [] && '"' !in u
    ensures ParseLine(w + (" " + x + (" " + ("\"" + u)))) == BadWord
  {
    var y := "\"" + u;
    assert GetWord(y).None? && y != [] && !IsSpace(y[0]) by {
      UnclosedWord(u);
    }
    SecondWrong(w, name, x, word, y);
  }

  lemma SecondWrong(w: string, name: string, x: string, word: string, y: string)
    requires ReadsTwo(name) && EqIgnoreCase(w, name) && Writes(x, word)
    requires y != [] && !IsSpace(y[0]) && GetWord(y).None?
    ensures ParseLine(w + (" " + x + (" " + y))) == BadWord
  {
    var rest := " " + y;
    LastArgument(y);
    WrittenWord(x, word, rest);
    Argument(x, rest);
    WordsOf(w, name, " " + x + rest);
    BadSecond(name, x + rest, word, y);
  }

  lemma BadSecond(name: string, words: string, word: string, y: string)
    requires ReadsTwo(name) && GetWord(words) == Some(Word(word, Some(y))) && GetWord(y).None?
    ensures ParseWords(name, Some(words)) == BadWord
  {
  }

  lemma BadFirst(name: string, words: string)
    requires ReadsWord(name) && GetWord(words).None?
    ensures ParseWords(name, Some(words)) == BadWord
  {
  }

  lemma NoSecond(name: string, words: string, word: string)
    requires ReadsTwo(name) && GetWord(words) == Some(Word(word, None))
    ensures ParseWords(name, Some(words)) == Missing
  {
  }

  /** An Add line whose type word names no type. */
  lemma UnknownTypeLine(w: string, x: string, entry: string, y: string, word: string, rest: string)
    requires (EqIgnoreCase(w, "Add") || EqIgnoreCase(w, "+")) && Writes(x, entry) && Writes(y, word) && Follows(rest)
    requires forall n | n in TypeNames() :: !EqIgnoreCase(word, n)
    ensures ParseLine(w + (" " + x + (" " + y + rest))) == BadType
  {
    WrittenWord(y, word, rest);
    Argument(y, rest);
    WrittenWord(x, entry, " " + y + rest);
    Argument(x, " " + y + rest);
    TypeOfWord(word, "string");
    AddWords(w, " " + x + (" " + y + rest));
  }

  /** The line starts with no name of an editing command. */
  predicate NoEdit(line: string) {
    && IsCommand(line, "Set").None? && IsCommand(line, "=").None? && IsCommand(line, "Add").None?
    && IsCommand(line, "+").None? && IsCommand(line, "Copy").None? && IsCommand(line, "cp").None?
    && IsCommand(line, "Delete").None? && IsCommand(line, "rm").None? && IsCommand(line, "-").None?
    && IsCommand(line, "Merge").None? && IsCommand(line, "Import").None?
  }

  /** The line starts with no name of the other commands. */
  predicate NoOther(line: string) {
    && IsCommand(line, "Exit").None? && IsCommand(line, "Quit").None? && IsCommand(line, "Bye").None?
    && IsCommand(line, "Help").None? && IsCommand(line, "Save").None? && IsCommand(line, "Revert").None?
    && IsCommand(line, "Print").None? && IsCommand(line, "ls").None? && IsCommand(line, "Clear").None?
  }

  lemma UnrecognizedEdit(line: string)
    ensures ParseEdit(line) == Unrecognized <==> NoEdit(line)
  {
  }

  /** A line is not recognized if and only if it starts with none of the names. */
  lemma UnrecognizedLine(line: string)
    ensures ParseLine(line) == Unrecognized <==> NoOther(line) && NoEdit(line)
  {
    UnrecognizedEdit(line);
  }
}
