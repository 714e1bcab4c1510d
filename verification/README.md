# Verified models of the guest tools

This project models, in Dafny, the parts of the repository that edit, encode and decode structured data, and
proves what they promise for every input.

* **PlistBuddy**, the property-list editor, in its Rust port and its C original. `PlistTree` is the property list as
  a pure tree with routes, token walks and automatic creation; `PlistEffects` says what each command does to it.
  `PlistHeap` and `PlistCopy` are the mutable containers, `PlistEditor` the editor itself: a class whose methods
  change containers in place and are proved to refine the pure effects while the heap stays a tree. `PlistPath` and
  `PlistText` are the path scanners, the word and value grammars and the index reader, each in both versions where
  they differ. `PlistCommands` parses a line, and `PlistLines` says what each kind of line
  means. `PlistRoutes` ties paths to places in the tree, `PlistReports` gives the exact condition of every answer and
  what a Merge writes, and `PlistLaws`, `PlistApart` and `PlistSessions` hold the laws over commands and sessions.
* **base64** (`Base64`, `Base64Meaning`): the wrapping encoder and the streaming decoder, against section 4 of RFC 4648.
* **The capture scripts** (`PngFilters`, `PngRows`, `PngFile`, `PngLayout`, `PngZoom`): scanline filters of sections 9.2 to 9.4 and chunk layout of
  section 5.3 of the PNG specification, two decoders, the encoder and the magnified crop.
* **The crash-analysis readers**: `NibArchive`, `CoreNotes` with the file layout of `CoreLayout`, and `MachO`, over the byte strings
  of `Bytes`. `Options` and `Numbers` are shared helpers.

`dafny verify dfyconfig.toml` checks everything.

## What the proofs bring out

* A Merge that has to create a dictionary on its path always fails and leaves the new dictionaries behind
  (`PlistLaws.MergeResidue`). A failed Copy does the same exactly when its source is missing (`PlistLaws.CopyResidue`).
  Add and Import are all or nothing.
* Add followed by Delete restores the tree under an exact condition (`PlistLaws.AddThenDelete`).
* The help text says that `Add :X: dict` appends to an array. The code trims colons at the end of a path
  (src/darwin/PlistBuddy/PlistBuddy.rs:1059-1063), so that path names `X` itself; the model follows the code.
* Backslashes in quoted command words are limited: exactly the words that `PlistText.Paired` accepts can be written
  (`PlistText.QuotedWordRange`). Quoted values have no such limit (`PlistText.UnquoteQuote`).
* The two capture readers do not accept the same files. When the image data ends inside the last row, at most one pixel
  short, and that row has no prediction filter, the zoom script returns a buffer that is short and the blackness script
  fails (`PngFile.ReadersAgree`, `PngFile.CutOffExample`). A crop that reaches the missing pixel then fails for greys and
  is written as a broken file for colours; every other crop reads back (`PngZoom.WriteCrop`).
* Merging a dictionary into an array puts its values before the last item, and needs an array that is not empty.

Report `Trap` stands for a call that breaks a CoreFoundation precondition, such as copying to an array index beyond
the count or deleting below a scalar; the model stops there and says so instead of excluding the input.

## Model

| member | source | states |
|---|---|---|
| `PlistEditor.Editor.Run` | src/darwin/PlistBuddy/PlistBuddy.rs:734-830 | over every session of command lines the containers keep forming a tree that holds exactly the pure tree `RunEffect` describes; the session stops at exit or where a foreign call would break |
| `PlistEditor.Editor.RunCommand` | src/darwin/PlistBuddy/PlistBuddy.rs:734-830 | one line, whatever its text, refines the pure `LineEffect` of the tree and keeps the heap a tree |
| `PlistCommands.ReadLine` | src/darwin/PlistBuddy/PlistBuddy.rs:734-830 | the chain of tests, reading words one by one, finds the command that the line denotes, with the refusals for missing and unterminated words |
| `PlistEditor.Editor.Edit` | src/darwin/PlistBuddy/PlistBuddy.rs:734-830 | Set, Add, Copy and Delete dispatch to the effect of their own command |
| `PlistEditor.Editor.constructor` | src/darwin/PlistBuddy/PlistBuddy.rs:563-585 | the editor starts on the loaded tree, or on an empty dictionary in a fresh container when nothing was loaded |
| `PlistEditor.Editor.RevertToFile` | src/darwin/PlistBuddy/PlistBuddy.rs:563-585 | Revert drops the whole tree for the loaded one in fresh containers, or for an empty dictionary |
| `PlistHeap.OneSlotEach` | src/darwin/PlistBuddy/PlistBuddy.rs:832-887 | no sharing and no cycle: in a heap that holds a tree, two routes that end at the same container are the same route |
| `PlistHeap.UpdateBelow` | src/darwin/PlistBuddy/PlistBuddy.rs:832-887 | a change inside one container refines the pure tree with that one subtree replaced, the containers in use staying accounted for |
| `PlistHeap.EditAt` | src/darwin/PlistBuddy/PlistBuddy.rs:832-887 | rebinding slots of one container, old children moved and new ones from outside, keeps the whole heap a tree and is one `Put` at its route |
| `PlistHeap.ReachGrown` | src/darwin/PlistBuddy/PlistBuddy.rs:1098-1105 | creating dictionaries moves nothing: a reference taken before still sits at the end of the same route |
| `PlistEditor.Editor.SetBody` | src/darwin/PlistBuddy/PlistBuddy.rs:832-887 | every in-place mutation: new container contents mean exactly one `Put` on the pure tree |
| `PlistEditor.Editor.PutKey` | src/darwin/PlistBuddy/PlistBuddy.rs:1349-1351 | setting a dictionary key replaces or binds that key and nothing else, the value bringing its own containers |
| `PlistEditor.Editor.PutItem` | src/darwin/PlistBuddy/PlistBuddy.rs:1392-1400 | setting an array item replaces that item and nothing else |
| `PlistEditor.Editor.SpliceItems` | src/darwin/PlistBuddy/PlistBuddy.rs:1329-1341 | values inserted into an array stand in order at the index, the items around them unchanged |
| `PlistEditor.Editor.InsertItem` | src/darwin/PlistBuddy/PlistBuddy.rs:832-887 | inserting into an array moves the items from the index on by one |
| `PlistEditor.Editor.RemoveKey` | src/darwin/PlistBuddy/PlistBuddy.rs:1244-1264 | removing a key removes that key only |
| `PlistEditor.Editor.RemoveItem` | src/darwin/PlistBuddy/PlistBuddy.rs:1244-1264 | removing an item closes the gap and removes no other |
| `PlistEditor.Editor.Resolve` | src/darwin/PlistBuddy/PlistBuddy.rs:1046-1123 | entry is the whole walk over the non-empty colon pieces; parent is the walk without the last token, or null exactly when an earlier step failed; the leaf name is the last token looked at; with creation the tree becomes `Create` of it, without it nothing changes |
| `PlistEditor.Editor.ResolveC` | src/darwin/PlistBuddy/PlistBuddy.c:868-937 | the C walk over a token buffer that it overwrites gives the same triple and creates the same dictionaries as the Rust walk, wherever the two index readers agree on the tokens that are looked up in an array |
| `PlistEditor.Editor.Scan` | src/darwin/PlistBuddy/PlistBuddy.rs:1065-1121 | the loop over an index into the trimmed path follows the tokens one by one and stops at the first that leads nowhere |
| `PlistEditor.Editor.ScanC` | src/darwin/PlistBuddy/PlistBuddy.c:868-937 | the same for the C loop, whose last token pointer still denotes the last token |
| `PlistEditor.Editor.RoundC` | src/darwin/PlistBuddy/PlistBuddy.c:868-937 | one round of the C loop: one token is consumed, and the earlier token in the buffer stays readable |
| `PlistEditor.Editor.Descend` | src/darwin/PlistBuddy/PlistBuddy.rs:1095-1117 | one step down by key or by index, creating a dictionary for a missing key only where creation is asked for and more tokens follow |
| `PlistEditor.Editor.CreateDict` | src/darwin/PlistBuddy/PlistBuddy.rs:1098-1105 | a created dictionary is empty, fresh and hangs under the missing key; what is still to be created stays the same |
| `PlistPath.Trim` | src/darwin/PlistBuddy/PlistBuddy.rs:1055-1063 | dropping colons at both ends keeps the tokens |
| `PlistPath.FindToken` | src/darwin/PlistBuddy/PlistBuddy.rs:1068-1090 | the next token begins behind the colons and ends at the next colon or the end |
| `PlistPath.NextToken` | src/darwin/PlistBuddy/PlistBuddy.rs:1068-1090 | the index scan delivers the first pending token, and the position behind it stands for the others |
| `PlistPath.StrtokEmpty` | src/darwin/PlistBuddy/PlistBuddy.c:846-866 | the tokenizer writes one NUL, over the delimiter behind the token, and its pointer stands for the remaining tokens |
| `PlistPath.TakeTokenC` | src/darwin/PlistBuddy/PlistBuddy.c:868-937 | taking a further token leaves the text of the token before it intact |
| `PlistText.ReadIndex` | src/darwin/PlistBuddy/PlistBuddy.rs:387-405 | the saturating loop computes the signed decimal value clamped to 64 bits |
| `PlistPath.ReadIndexC` | src/darwin/PlistBuddy/PlistBuddy.c:868-937 | for every number that fits an `int` and no vertical tab among its leading blanks, `atoi` gives the same index as the port |
| `PlistText.AtoiNumeral` | src/darwin/PlistBuddy/PlistBuddy.rs:387-405 | the decimal numeral of an index names that index |
| `PlistTree.WalkIsGet` | src/darwin/PlistBuddy/PlistBuddy.rs:1046-1123 | a token walk succeeds exactly when it has a route, and finds what stands at the end of it |
| `PlistTree.CreateIsPut` | src/darwin/PlistBuddy/PlistBuddy.rs:1096-1117 | creation is one `Put` of a chain of dictionaries at the first dictionary that lacks a key |
| `PlistTree.CreateNothing` | src/darwin/PlistBuddy/PlistBuddy.rs:1096-1117 | where no key is missing, creation changes nothing |
| `PlistTree.CreateChain` | src/darwin/PlistBuddy/PlistBuddy.rs:1096-1117 | each created dictionary holds exactly the next token, the last one nothing |
| `PlistTree.CreateKeepsRoutes` | src/darwin/PlistBuddy/PlistBuddy.rs:1096-1117 | every path that resolved before creation keeps its route |
| `PlistTree.CreateIndexes` | src/darwin/PlistBuddy/PlistBuddy.rs:1096-1117 | creation adds no array to the way of a walk and takes none away |
| `PlistTree.TokensAreNames` | src/darwin/PlistBuddy/PlistBuddy.rs:1055-1090 | the tokens of a path are not empty, but for the single empty token of an empty path |
| `PlistLaws.CreatedParent` | src/darwin/PlistBuddy/PlistBuddy.rs:1091-1120 | once a dictionary has been created the parent exists and is empty, so no later step can fail |
| `PlistEditor.Editor.AddEntry` | src/darwin/PlistBuddy/PlistBuddy.rs:832-887 | Add in place equals the pure `AddEntryEffect`, report included |
| `PlistEditor.Editor.AddToParent` | src/darwin/PlistBuddy/PlistBuddy.rs:846-886 | adding under a resolved parent: clamped insertion into an array, an absent key in a dictionary, or the refusals |
| `PlistEditor.Editor.SetEntry` | src/darwin/PlistBuddy/PlistBuddy.rs:1005-1037 | Set in place equals the pure `SetEffect`: the value is parsed by the type already there and no container is added |
| `PlistEditor.Editor.WriteToParent` | src/darwin/PlistBuddy/PlistBuddy.rs:1021-1036 | the scalar is replaced through its parent, in a dictionary or an array |
| `PlistEditor.Editor.DeleteEntry` | src/darwin/PlistBuddy/PlistBuddy.rs:1244-1264 | Delete in place equals the pure `DeleteEffect` |
| `PlistEditor.Editor.CopyEntry` | src/darwin/PlistBuddy/PlistBuddy.rs:1266-1299 | Copy in place equals the pure `CopyEffect`, including a destination inside the source; the copy lives in fresh containers only |
| `PlistEditor.Editor.CopyToParent` | src/darwin/PlistBuddy/PlistBuddy.rs:1284-1298 | the copy goes under the key or index of the destination; an array index beyond the count breaks the foreign precondition |
| `PlistEditor.Editor.SourceStays` | src/darwin/PlistBuddy/PlistBuddy.rs:1266-1285 | the source reference taken before creation still denotes the source as it stands afterwards |
| `PlistCopy.DeepCopy` | src/darwin/PlistBuddy/PlistBuddy.rs:1284-1285 | the copy is the same tree in containers that did not exist before |
| `PlistEditor.Editor.MergeFile` | src/darwin/PlistBuddy/PlistBuddy.rs:1301-1367 | Merge in place equals the pure `MergeEffect`: every pair of container kinds, the default destination, and the refusals |
| `PlistEditor.Editor.MergeKeys` | src/darwin/PlistBuddy/PlistBuddy.rs:1344-1351 | merging a dictionary moves each loaded value in once; later keys win over those that were there |
| `PlistEditor.Editor.MergeIntoArray` | src/darwin/PlistBuddy/PlistBuddy.rs:1327-1342 | an array is appended, the values of a dictionary go before the last item, a scalar is appended |
| `PlistEditor.Editor.MergeIntoDict` | src/darwin/PlistBuddy/PlistBuddy.rs:1343-1360 | a dictionary takes a dictionary, refuses an array, and binds a scalar to the empty key |
| `PlistEditor.Editor.ImportFile` | src/darwin/PlistBuddy/PlistBuddy.rs:1370-1405 | Import in place equals the pure `ImportEffect` |
| `PlistEditor.Editor.ImportToParent` | src/darwin/PlistBuddy/PlistBuddy.rs:1377-1404 | the loaded value replaces the key, replaces the item at the index, or is appended |
| `PlistLaws.AddAllOrNothing` | src/darwin/PlistBuddy/PlistBuddy.rs:832-887 | a failed Add leaves the very same tree although it may create dictionaries; a successful one puts the value in its slot; each created dictionary holds exactly its one next token; an Add that had to create cannot fail |
| `PlistLaws.AddThenDelete` | src/darwin/PlistBuddy/PlistBuddy.rs:1244-1264 | Add then Delete of the same entry restores the tree if and only if no dictionary had to be created and, under an array, the index is between 0 and the count |
| `PlistLaws.AddShifts` | src/darwin/PlistBuddy/PlistBuddy.rs:832-887 | after Add into an array every route outside the ancestors leads, shifted by exactly one past the index, to what it led to before |
| `PlistLaws.AddIsPut` | src/darwin/PlistBuddy/PlistBuddy.rs:832-887 | a successful Add under a dictionary, created or not, is one write that binds exactly one absent key |
| `PlistLaws.AddKeyFrame` | src/darwin/PlistBuddy/PlistBuddy.rs:832-887 | after Add under a dictionary, with or without creation, the absent key leads to something new and every route that does not go through it or end above it leads to what it led to before |
| `PlistLaws.DeleteShifts` | src/darwin/PlistBuddy/PlistBuddy.rs:1244-1264 | after Delete from an array what was one further on is found one earlier, everything else where it was |
| `PlistLaws.DeleteKeyFrame` | src/darwin/PlistBuddy/PlistBuddy.rs:1244-1264 | after Delete of a key that slot and what was below it are gone, and all other routes are as before |
| `PlistLaws.SetFrame` | src/darwin/PlistBuddy/PlistBuddy.rs:1005-1037 | after Set the entry holds the parsed value and every path leading apart from it finds what it found before |
| `PlistLaws.SetIsPut` | src/darwin/PlistBuddy/PlistBuddy.rs:1005-1037 | a successful Set is one write of a scalar at the route of the entry |
| `PlistLaws.SetRunKeepsTypes` | src/darwin/PlistBuddy/PlistBuddy.rs:663-684 | over any run of Set commands no path appears, disappears or changes its inferred type |
| `PlistLaws.CopyArrives` | src/darwin/PlistBuddy/PlistBuddy.rs:1266-1299 | after a successful Copy the destination holds the source as it stands once the destination path has been created |
| `PlistLaws.CopySourceUnchanged` | src/darwin/PlistBuddy/PlistBuddy.rs:1266-1299 | creating the destination changes the source if and only if the missing key lies at or below the source |
| `PlistApart.EditStaysBelow` | src/darwin/PlistBuddy/PlistBuddy.rs:832-887 | each editing command, succeeding or failing, changes nothing outside the subtree that a proper prefix of its target path leads to |
| `PlistApart.EditFrame` | src/darwin/PlistBuddy/PlistBuddy.rs:734-830 | each editing command, succeeding or failing, leaves every route alone that leads apart from the one slot it touches, or from the array whose items it moves |
| `PlistApart.SessionStaysBelow` | src/darwin/PlistBuddy/PlistBuddy.rs:734-830 | over any session whose edits stay below one path, a path that leads elsewhere keeps its value |
| `PlistApart.SessionFrame` | src/darwin/PlistBuddy/PlistBuddy.rs:734-830 | over any session whose commands each lead apart from a route, that route keeps leading to the same |
| `PlistApart.CopyKeepsPaths` | src/darwin/PlistBuddy/PlistBuddy.rs:1266-1299 | after a Copy every path that resolved before still resolves, by the same route |
| `PlistApart.CopyPlaces` | src/darwin/PlistBuddy/PlistBuddy.rs:1266-1299 | after a Copy source and copy stand apart if and only if the destination did not lie inside the source; otherwise the copy stands inside the source |
| `PlistApart.CopiesStayApart` | src/darwin/PlistBuddy/PlistBuddy.rs:1266-1299 | after a Copy to a destination outside its source, no session of edits below the copy ever shows at the source, and none below the source at the copy |
| `PlistApart.NestedCopyEdits` | src/darwin/PlistBuddy/PlistBuddy.rs:1266-1299 | after a Copy into its own source, a session of edits below the copy changes the source in that one slot only |
| `PlistApart.CopyUntouched` | src/darwin/PlistBuddy/PlistBuddy.rs:1266-1299 | wherever a Copy went, the copy keeps the copied value over every session that leads apart from it, edits elsewhere in the source included |
| `PlistLaws.CopyResidue` | src/darwin/PlistBuddy/PlistBuddy.rs:1266-1299 | a failed Copy leaves dictionaries behind if and only if the source is missing and the destination path was not there |
| `PlistLaws.CopyResidueExample` | src/darwin/PlistBuddy/PlistBuddy.rs:1266-1282 | copying a missing entry to `:a:b` in an empty list fails and leaves the dictionary `a` |
| `PlistLaws.MergeResidue` | src/darwin/PlistBuddy/PlistBuddy.rs:1301-1367 | a Merge that has to create a dictionary always fails and leaves it behind; every other failing Merge leaves the tree as it was |
| `PlistLaws.MergeResidueExample` | src/darwin/PlistBuddy/PlistBuddy.rs:1301-1322 | merging any file into `:a:b` of an empty list fails and leaves the dictionary `a` |
| `PlistLaws.ImportAllOrNothing` | src/darwin/PlistBuddy/PlistBuddy.rs:1370-1405 | a failed Import leaves the tree as it was, a successful one puts the file in its slot, and one that had to create cannot fail |
| `PlistRoutes.PathLeads` | src/darwin/PlistBuddy/PlistBuddy.rs:1046-1123 | the path spelled from the keys and indices of a route leads along that route to what stands there |
| `PlistRoutes.ColonsStay` | src/darwin/PlistBuddy/PlistBuddy.rs:1055-1063 | a path of colons only, or an empty one, stays at the root |
| `PlistPath.PathTokens` | src/darwin/PlistBuddy/PlistBuddy.rs:1055-1090 | names joined by colons are tokenized as those names |
| `PlistPath.ColonIgnored` | src/darwin/PlistBuddy/PlistBuddy.rs:1055-1090 | a colon more beside another one or at an end changes no token |
| `PlistReports.AddReport` | src/darwin/PlistBuddy/PlistBuddy.rs:832-887 | Add succeeds if and only if a key had to be created, the parent is an array, or it is a dictionary where the entry does not resolve; each refusal has its exact condition on the tree before |
| `PlistReports.AddEntryReport` | src/darwin/PlistBuddy/PlistBuddy.rs:832-846 | an Add whose value cannot be read fails before it looks at the tree; any other answers as Add of that value |
| `PlistReports.SetReport` | src/darwin/PlistBuddy/PlistBuddy.rs:1005-1037 | each answer of Set if and only if its condition on the tree before: missing entry, container, unreadable value, done |
| `PlistReports.DeleteReport` | src/darwin/PlistBuddy/PlistBuddy.rs:1244-1264 | each answer of Delete if and only if its condition on the tree before |
| `PlistReports.CopyReport` | src/darwin/PlistBuddy/PlistBuddy.rs:1266-1299 | each answer of Copy if and only if its condition on the tree before: missing source, existing destination, a parent that takes it, a broken foreign call |
| `PlistReports.ImportReport` | src/darwin/PlistBuddy/PlistBuddy.rs:1370-1405 | each answer of Import if and only if its condition on the tree before |
| `PlistReports.MergeReport` | src/darwin/PlistBuddy/PlistBuddy.rs:1301-1367 | the answer of Merge for every kind of destination and of file, and for a file that cannot be loaded |
| `PlistReports.MergeDictIntoDict` | src/darwin/PlistBuddy/PlistBuddy.rs:1343-1351 | a dictionary into a dictionary succeeds: every key of the file leads to the value of the file, every other key to what it led to |
| `PlistReports.MergeArrayIntoArray` | src/darwin/PlistBuddy/PlistBuddy.rs:1327-1329 | an array into an array: old items keep their index and item j of the file stands at count + j |
| `PlistReports.MergeDictIntoArray` | src/darwin/PlistBuddy/PlistBuddy.rs:1330-1339 | a dictionary into a non-empty array: its values stand in order before the last item |
| `PlistReports.MergeScalar` | src/darwin/PlistBuddy/PlistBuddy.rs:1340-1360 | a scalar goes behind the last item of an array or to the empty key of a dictionary, the rest staying |
| `PlistReports.MergedAt` | src/darwin/PlistBuddy/PlistBuddy.rs:1301-1367 | a Merge changes the container it goes to and no slot of it but those above |
| `PlistText.ReadWord` | src/darwin/PlistBuddy/PlistBuddy.rs:690-732 | the loop over a command word agrees with the recursive scan, with the rest of the line and the unterminated case |
| `PlistText.ReadWordC` | src/darwin/PlistBuddy/PlistBuddy.c:353-420 | the C version, filling a buffer by index, reads the same word and rest and never overruns the buffer, a vertical tab inside the word included |
| `PlistText.FillWordC` | src/darwin/PlistBuddy/PlistBuddy.c:355-396 | what stands in the buffer is the unescaped text, ended by a NUL if and only if the quote was closed |
| `PlistText.BlanksAgree` | src/darwin/PlistBuddy/PlistBuddy.c:274-285 | both versions skip the same blanks if and only if no vertical tab stands right behind the others |
| `PlistText.QuotedWordReads` | src/darwin/PlistBuddy/PlistBuddy.rs:690-732 | a quoted word is read back exactly and the rest of the line is preserved |
| `PlistText.QuotedWordRange` | src/darwin/PlistBuddy/PlistBuddy.rs:690-732 | a quoted word can express exactly the words whose every backslash stands before a character that is no escape; others cannot be written |
| `PlistText.NoBackslashIsPaired` | src/darwin/PlistBuddy/PlistBuddy.rs:690-732 | every word without a backslash can be written as a quoted word |
| `PlistText.ReadText` | src/darwin/PlistBuddy/PlistBuddy.rs:889-933 | the string branch of the value parser agrees with the recursive unescaping, refusing an unclosed quote |
| `PlistText.UnquoteQuote` | src/darwin/PlistBuddy/PlistBuddy.rs:889-933 | every string survives being escaped, quoted and parsed as a value |
| `PlistCommands.SetQuoted` | src/darwin/PlistBuddy/PlistBuddy.rs:762-784 | a Set line with quoted entry and value is parsed as exactly that entry and value |
| `PlistCommands.AddQuoted` | src/darwin/PlistBuddy/PlistBuddy.rs:762-784 | an Add line with a quoted entry, the word string and a quoted value is parsed as exactly those |
| `PlistText.AtoiSigned` | src/darwin/PlistBuddy/PlistBuddy.rs:387-405 | blanks, a sign, a numeral and what is no digit behind it: the signed number, clamped to 64 bits |
| `PlistText.WordEscapes` | src/darwin/PlistBuddy/PlistBuddy.rs:690-732 | what each backslash pair stands for in a quoted word |
| `PlistText.ValueEscapes` | src/darwin/PlistBuddy/PlistBuddy.rs:889-933 | what each backslash pair stands for in a quoted value |
| `PlistText.PlainText` | src/darwin/PlistBuddy/PlistBuddy.rs:889-933 | a value without quotes and backslashes is itself |
| `PlistLines.BlanksSkipped` | src/darwin/PlistBuddy/PlistBuddy.rs:616-636 | any number of blanks in front of a word is skipped, and blanks alone are no word |
| `PlistLines.WrittenWord` | src/darwin/PlistBuddy/PlistBuddy.rs:690-732 | a word written plainly or quoted is read as that word, with the rest of the line |
| `PlistLines.ExitLine` | src/darwin/PlistBuddy/PlistBuddy.rs:736-740 | Exit, Quit and Bye in any case give the command that ends |
| `PlistLines.HelpLine` | src/darwin/PlistBuddy/PlistBuddy.rs:741-742 | Help gives Help |
| `PlistLines.SaveLine` | src/darwin/PlistBuddy/PlistBuddy.rs:743-745 | Save gives Save |
| `PlistLines.RevertLine` | src/darwin/PlistBuddy/PlistBuddy.rs:746-748 | Revert gives Revert |
| `PlistLines.PrintLine` | src/darwin/PlistBuddy/PlistBuddy.rs:749-750 | Print and ls give Print with the rest of the line |
| `PlistLines.ClearLine` | src/darwin/PlistBuddy/PlistBuddy.rs:751-761 | Clear gives Clear |
| `PlistLines.SetLineOf` | src/darwin/PlistBuddy/PlistBuddy.rs:762-768 | Set and = give the entry of the first word and the rest of the line as text |
| `PlistLines.AddLineOf` | src/darwin/PlistBuddy/PlistBuddy.rs:769-784 | Add and + give the entry, the type that the second word names in any case, and the rest of the line as text |
| `PlistLines.TypeOfWord` | src/darwin/PlistBuddy/PlistBuddy.rs:638-661 | each type word gives its own type, and every other word none |
| `PlistLines.CopyLine` | src/darwin/PlistBuddy/PlistBuddy.rs:785-796 | Copy and cp give the first word as source and the second as destination |
| `PlistLines.DeleteLine` | src/darwin/PlistBuddy/PlistBuddy.rs:797-806 | Delete, rm and - give the rest of the line as it stands, or a missing argument |
| `PlistLines.MergeLine` | src/darwin/PlistBuddy/PlistBuddy.rs:807-813 | Merge gives the file of its first word and the rest as destination, or none |
| `PlistLines.ImportLine` | src/darwin/PlistBuddy/PlistBuddy.rs:814-826 | Import gives the first word as entry and the second as file |
| `PlistLines.NoWords` | src/darwin/PlistBuddy/PlistBuddy.rs:762-830 | a command without its first word is refused for missing arguments |
| `PlistLines.OneWord` | src/darwin/PlistBuddy/PlistBuddy.rs:762-830 | a command without its second word is refused for missing arguments |
| `PlistLines.UnclosedLine` | src/darwin/PlistBuddy/PlistBuddy.rs:690-732 | an unterminated first word is refused |
| `PlistLines.UnclosedSecond` | src/darwin/PlistBuddy/PlistBuddy.rs:690-732 | an unterminated second word is refused |
| `PlistLines.UnknownTypeLine` | src/darwin/PlistBuddy/PlistBuddy.rs:638-661 | an Add whose type word names no type is refused |
| `PlistLines.UnrecognizedLine` | src/darwin/PlistBuddy/PlistBuddy.rs:734-830 | a line is not recognized if and only if it starts with none of the command names |
| `PlistSessions.SetWritesString` | src/darwin/PlistBuddy/PlistBuddy.rs:1005-1037 | typing a Set line for a string entry leaves exactly the given string at the entry, for every string |
| `PlistSessions.AddWritesString` | src/darwin/PlistBuddy/PlistBuddy.rs:832-887 | typing an Add line is the Add of exactly the given string, found at the entry afterwards unless an array index was clamped |
| `PlistSessions.CopyLineEffect` | src/darwin/PlistBuddy/PlistBuddy.rs:1266-1299 | typing a Copy line has the effect of the Copy from its first word to its second |
| `PlistSessions.DeleteLineEffect` | src/darwin/PlistBuddy/PlistBuddy.rs:1244-1264 | typing a Delete line has the effect of deleting the entry that the rest of the line spells |
| `PlistSessions.MergeLineEffect` | src/darwin/PlistBuddy/PlistBuddy.rs:1301-1367 | typing a Merge line merges the loaded file into the destination behind its name, or into the root |
| `PlistSessions.ImportLineEffect` | src/darwin/PlistBuddy/PlistBuddy.rs:1370-1405 | typing an Import line imports the loaded file at the entry of its first word |
| `PlistSessions.SetTextEffect` | src/darwin/PlistBuddy/PlistBuddy.rs:1005-1037 | typing a Set line sets the entry to the rest of the line, read by its type |
| `PlistSessions.AddTextEffect` | src/darwin/PlistBuddy/PlistBuddy.rs:832-887 | typing an Add line adds a value of the named type made from the rest of the line |
| `PlistSessions.RevertLineEffect` | src/darwin/PlistBuddy/PlistBuddy.rs:563-585 | typing Revert goes back to what is loaded, or to an empty dictionary |
| `PlistSessions.HarmlessLine` | src/darwin/PlistBuddy/PlistBuddy.rs:734-830 | every other line, refused ones included, leaves the tree alone, and only the exit words end the session |
| `PlistSessions.SessionInParts` | src/darwin/PlistBuddy/PlistBuddy.rs:734-830 | a session goes on from the tree that its first part leaves, unless that part ended it |
| `PlistSessions.ExitEnds` | src/darwin/PlistBuddy/PlistBuddy.rs:736-740 | no line behind an exit word is looked at |
| `PlistSessions.TrueWords` | src/darwin/PlistBuddy/PlistBuddy.rs:934-940 | true and yes in any case and 1 give a true value, all other texts a false one |
| `PlistSessions.NewValues` | src/darwin/PlistBuddy/PlistBuddy.rs:832-846 | Add with type array or dict makes an empty container whatever text follows, with a scalar type a scalar of it |
| `Base64.Decode` | src/darwin/base64/base64.c:90-129 | the decoder with a word that drops its high bits returns the group-of-four decoding of the characters before the terminator, and its verdict |
| `Base64.Push` | src/darwin/base64/base64.c:120-125 | one sextet: the pending bits are 0, 2, 4 or 6, all whole bytes are out, and the low bits of the word are those still pending |
| `Base64.BuildReverse` | src/darwin/base64/base64.c:98-101 | the reverse table holds the value of every alphabet character and -1 elsewhere |
| `Base64.FromSextetsLength` | src/darwin/base64/base64.c:90-129 | m alphabet characters give exactly 3m/4 bytes, rounded down |
| `Base64.BlankIgnored` | src/darwin/base64/base64.c:90-129 | a blank inserted anywhere before the terminator changes nothing |
| `Base64.SextetsRoundTrip` | src/darwin/base64/base64.c:63-77 | three bytes to four sextets and back is the identity on every byte sequence, padded or not |
| `Base64.Encode` | src/darwin/base64/base64.c:57-88 | the encoder emits the encoding of section 4 of RFC 4648 laid out in lines of the given width |
| `Base64.EncodeGroup` | src/darwin/base64/base64.c:63-77 | a group packed into one word yields its four characters, padding included |
| `Base64.Emit` | src/darwin/base64/base64.c:45-55 | a character, and a newline when it fills the line; the column is the position on the current line |
| `Base64.ReadWrapped` | src/darwin/base64/base64.c:45-129 | line breaks are invisible to the decoder wherever they fall, inside a quantum or beside padding |
| `Base64.RoundTrip` | src/darwin/base64/base64.c:45-129 | decoding the encoder's output returns the original bytes for every wrap width |
| `Base64.EncodingLength` | src/darwin/base64/base64.c:63-88 | n bytes give four characters for every group of three begun |
| `Base64.Layout` | src/darwin/base64/base64.c:45-88 | where every character and every newline stands: ceil(c/w) newlines, w characters on every line but the last, a newline at the end unless there is nothing, and the unwrapped encoding when they are deleted |
| `Base64Meaning.AlphabetOrder` | src/darwin/base64/base64.c:31-32 | sextet x stands for character x of the alphabet, and back |
| `Base64Meaning.ValidInput` | src/darwin/base64/base64.c:103-116 | an input is valid if and only if all before the first padding character is of the alphabet or blank |
| `Base64Meaning.SextetsRead` | src/darwin/base64/base64.c:103-120 | the sextets of a valid input are the places in the alphabet of its characters, in order |
| `Base64Meaning.GroupNumbers` | src/darwin/base64/base64.c:63-77 | each three bytes and their four sextets are the digits of one number of 24 bits |
| `Base64Meaning.LastByte` | src/darwin/base64/base64.c:63-77 | a last group of one byte gives the two sextets of that byte filled up with zeros |
| `Base64Meaning.LastBytes` | src/darwin/base64/base64.c:63-77 | a last group of two bytes gives the three sextets of them filled up with zeros |
| `Base64Meaning.EncodingIsSymbols` | src/darwin/base64/base64.c:57-88 | the encoding is the characters of the sextets, then two, one or no padding characters |
| `Base64Meaning.DecodedNumbers` | src/darwin/base64/base64.c:120-125 | whatever the sextets, each four of them and their three bytes are one number |
| `Base64Meaning.DecodedRest` | src/darwin/base64/base64.c:120-125 | sextets behind the last whole group give no, one or two bytes, their lowest bits dropped |
| `PngRows.ReconFiltered` | scripts/checks/capture-zoom.py:56-83 | for every row and filter type, reconstruction undoes filtering, prefix by prefix |
| `PngRows.UnfilterImage` | scripts/checks/capture-zoom.py:56-83 | every image filtered row by row in any way is read back by both scripts; bytes behind the last row are ignored |
| `PngRows.ByteZoom` | scripts/checks/capture-zoom.py:66-80 | the zoom script's branches add what the filter adds (left; above; the mean rounded down; the nearest neighbour with ties in order; nothing), modulo 256 |
| `PngRows.ByteBlack` | scripts/checks/capture-is-black.py:62-77 | the blackness script's single masked sum adds the same |
| `PngRows.ReconstructZoom` | scripts/checks/capture-zoom.py:64-80 | the in-place loop over a line that may be cut off reconstructs it, and fails exactly when it reads a byte that is missing: any under filters 1 to 4, otherwise only more than a pixel |
| `PngRows.ReconstructBlack` | scripts/checks/capture-is-black.py:59-77 | the in-place loop over a line that may be cut off reconstructs it, and fails exactly when a byte is missing |
| `PngRows.ReadRowsZoom` | scripts/checks/capture-zoom.py:56-83 | the row loop of the zoom script returns the rows of the stream, a short last one included, or fails |
| `PngRows.ReadRowsBlack` | scripts/checks/capture-is-black.py:51-80 | the row loop of the blackness script returns the rows of the stream, or fails |
| `PngRows.SameRows` | scripts/checks/capture-is-black.py:51-80 | on every stream that both scripts accept they make the same rows |
| `PngRows.OnlyZoomAccepts` | scripts/checks/capture-zoom.py:56-83 | only the zoom script accepts a stream if and only if it ends inside the last row, at most one pixel short, with a filter type outside 1 to 4 |
| `PngRows.ShortTailExample` | scripts/checks/capture-zoom.py:56-83 | one grey pixel whose stream is a single zero: an empty row for the zoom script, a failure for the other |
| `PngRows.UnfilteredSize` | scripts/checks/capture-zoom.py:56-83 | the pixel buffer holds all bytes of its rows but those that the stream lacks |
| `PngFilters.PaethIsNearest` | scripts/checks/capture-zoom.py:76-80 | the selected neighbour is the one that none is nearer than to left + above - upper left, ties in that order, and no other is |
| `PngFilters.PredictRestores` | scripts/checks/capture-zoom.py:70-80 | a byte is restored as the filter type says if and only if it is the raw byte plus the prediction |
| `PngRows.ReconRestores` | scripts/checks/capture-zoom.py:64-80 | a row is the reconstruction of a line if and only if every byte of it is restored from its raw byte, its left neighbour and the row above |
| `PngRows.SubSums` | scripts/checks/capture-zoom.py:70-71 | under filter type 1 each byte is the sum modulo 256 of the raw bytes of its channel up to it |
| `PngRows.ReconPlain` | scripts/checks/capture-is-black.py:62-77 | under types 0 and above 4 a row is its raw bytes |
| `PngRows.RowsRestored` | scripts/checks/capture-zoom.py:56-83 | over a whole stream each row is restored from its own line, by its own filter type, and the row above it |
| `PngLayout.FileStream` | scripts/checks/capture-zoom.py:29-58 | any signature, header, chunks in any order and end: refused unless eight bits, not interlaced and of colour type 0, 2, 3, 4 or 6, which have 1, 3, 1, 2 and 4 channels; the image data is joined in order |
| `PngLayout.FileRead` | scripts/checks/capture-zoom.py:29-83 | both scripts read every supported file, whatever its colour type, filters and other chunks, as the image whose filtered rows it holds |
| `PngLayout.WrittenLayout` | scripts/checks/capture-zoom.py:92-102 | what the zoom script writes: the signature, an eight-bit colour header, one data chunk, the end, each with the checksum of its name and body |
| `PngZoom.SampleOfRows` | scripts/checks/capture-zoom.py:129-132 | pixel (x, y) of a buffer is found in row y behind x pixels, for every number of channels; greys stand for all colours |
| `PngFile.ReadChunks` | scripts/checks/capture-zoom.py:34-46 | the chunk loop keeps the last header and all image data in order, stops at the end chunk, and fails on a header of the wrong size |
| `PngFile.ReadPngZoom` | scripts/checks/capture-zoom.py:29-83 | the zoom script returns the image of the file, as its own row loop reads it |
| `PngFile.ReadPngBlack` | scripts/checks/capture-is-black.py:20-80 | the blackness script returns the image of the file, as its own row loop reads it |
| `PngFile.ReadersAgree` | scripts/checks/capture-is-black.py:20-80 | the two readers return the same image on every file that both accept, and only the zoom script accepts exactly those whose data is cut off inside the last row |
| `PngFile.CutOffExample` | scripts/checks/capture-zoom.py:56-83 | a 1x1 grey capture with one byte of data: an image without pixels for the zoom script, a failure for the other |
| `PngFile.WrittenIsRead` | scripts/checks/capture-zoom.py:92-102 | a written file is read back by both scripts: the same size, three channels, the same rows |
| `PngZoom.ReadIsCapture` | scripts/checks/capture-zoom.py:29-83 | the zoom script lacks at most one pixel of the buffer, and lacks nothing if and only if the data is not cut off; the blackness script lacks nothing |
| `PngZoom.InsidePixels` | scripts/checks/capture-zoom.py:117-121 | a crop that is not empty is accepted if and only if each of its pixels is one of the capture |
| `PngZoom.MagnifyRow` | scripts/checks/capture-zoom.py:127-132 | the loop over a row takes a slice for colours and an item for greys, and fails where an item is missing |
| `PngZoom.Magnify` | scripts/checks/capture-zoom.py:124-133 | the crop and magnify loops produce every magnified row, or fail |
| `PngZoom.WholeRows` | scripts/checks/capture-zoom.py:124-133 | for a crop that reaches no missing byte, byte i of every magnified row is colour i mod 3 of the source pixel under it |
| `PngZoom.BrokenRows` | scripts/checks/capture-zoom.py:124-133 | a crop that reaches the missing pixel fails for greys and gets a last row that is short for colours |
| `PngZoom.BrokenFile` | scripts/checks/capture-zoom.py:92-102 | a file written from such rows is never read as a complete image |
| `PngZoom.ZoomReadBack` | scripts/checks/capture-zoom.py:92-136 | reading the written crop back, with either script, gives at every (x, y) the source pixel at (x0 + x div scale, y0 + y div scale) |
| `PngZoom.WriteCrop` | scripts/checks/capture-zoom.py:123-136 | for every crop inside the capture: the script fails exactly for greys with a missing pixel in the crop, and what it writes reads back as the magnified crop if and only if no pixel in the crop is missing |
| `PngZoom.ZoomFile` | scripts/checks/capture-zoom.py:105-136 | the whole script: unreadable and outside exactly when they are, unwritable for a negative size, and otherwise the answer for the crop |
| `NibArchive.R.Var` | scripts/nibdump.py:25-30 | the shifting loop reads the integer up to the first byte with its high bit set and leaves the cursor behind it |
| `NibArchive.R.U32` | scripts/nibdump.py:23-24 | four little-endian bytes, the cursor behind them, or a failure at the end of the file |
| `NibArchive.R.Raw` | scripts/nibdump.py:31-32 | a slice clipped at the end of the file, while the cursor moves on by the whole length |
| `NibArchive.VarintRead` | scripts/nibdump.py:25-30 | an encoded integer is read back wherever it stands, the cursor right behind it |
| `NibArchive.VarintsRead` | scripts/nibdump.py:25-30 | any concatenation of encoded integers is read back one by one, the cursor exactly at its end |
| `NibArchive.ReadValue` | scripts/nibdump.py:45-58 | the byte of the type decides how the value is read, for all eleven types |
| `NibArchive.ValueRead` | scripts/nibdump.py:45-58 | every storable value is read back from its bytes |
| `NibArchive.Parse` | scripts/nibdump.py:34-64 | the table loops return what the pure parser makes of the file |
| `NibArchive.ArchiveParsed` | scripts/nibdump.py:34-64 | a file whose header leads to the four tables, wherever they stand, is parsed as that archive's objects |
| `NibArchive.ArchiveRoundTrip` | scripts/nibdump.py:34-64 | laying an archive out and parsing the file gives its objects, with class names, keys and values |
| `NibArchive.VarintDigits` | scripts/nibdump.py:25-30 | byte i of an encoded integer is its digit i to base 128, the last one marked by the high bit |
| `NibArchive.StripsEnd` | scripts/nibdump.py:43-43 | class names lose the NUL characters at their end and nothing else |
| `NibArchive.ArchiveRefused` | scripts/nibdump.py:34-64 | a file whose tables name a key or a class that does not exist is refused |
| `Bytes.WordDigits` | scripts/nibdump.py:23-24 | byte i of a stored word is its digit i to base 256 |
| `Bytes.SliceItems` | scripts/nibdump.py:31-32 | a slice holds the items from its start on, as many as there are up to the count |
| `CoreNotes.ReadNtFile` | scripts/core-guest-stack.py:53-94 | the stack script's loops return the mappings of the first NT_FILE note, names split at NUL |
| `CoreNotes.MappedFiles` | scripts/core-guest-memory.py:39-59 | the memory script's loops return the mappings of the first NT_FILE note, names scanned one by one |
| `CoreNotes.Phdrs` | scripts/core-guest-memory.py:24-36 | the header loop reads every program header whole, or fails |
| `CoreNotes.WalkStack` | scripts/core-guest-stack.py:73-82 | the note walk of the stack script finds the first NT_FILE note of a segment and visits exactly the positions of the reference walk |
| `CoreNotes.WalkMemory` | scripts/core-guest-memory.py:43-58 | the note walk of the memory script finds the same note and visits the same positions |
| `CoreNotes.VisitsAdvance` | scripts/core-guest-memory.py:43-58 | the cursor of a note walk moves forward by at least twelve bytes each time and stays aligned to four |
| `CoreNotes.NamesAgree` | scripts/core-guest-stack.py:89-92 | scanning name by name finds the pieces of the split, as long as there are enough NULs |
| `CoreNotes.ParsersAgree` | scripts/core-guest-stack.py:53-94 | on every well-formed core both scripts return the same starts, ends and names, in the same order |
| `CoreNotes.DescriptionRead` | scripts/core-guest-memory.py:48-57 | a description as the kernel writes it is read back by the memory script as its mappings |
| `CoreNotes.DescriptionReadStack` | scripts/core-guest-stack.py:83-93 | the same description is read back by the stack script, with file offsets in bytes |
| `CoreNotes.DescriptionGood` | scripts/core-guest-stack.py:83-93 | a description as the kernel writes it is complete: it holds its triples and one NUL per name |
| `CoreLayout.HeadRead` | scripts/core-guest-stack.py:76-79 | a note written as name size, description size, type, padded name and padded description has exactly that head where it stands |
| `CoreLayout.WalkFinds` | scripts/core-guest-memory.py:43-58 | behind notes of other types, whatever their sizes, the walk finds the NT_FILE note and where its description stands |
| `CoreLayout.HeadersRead` | scripts/core-guest-memory.py:29-35 | program headers written as words, any distance apart, are read as those headers |
| `CoreLayout.KernelCore` | scripts/core-guest-stack.py:53-94 | the layout theorem: ELF bytes, table words, program headers and a note segment of any other notes followed by the NT_FILE note make both scripts return exactly the mappings written, with no hypothesis about what the walk finds |
| `CoreLayout.CoreWithoutFiles` | scripts/core-guest-memory.py:39-59 | a core laid out without an NT_FILE note makes both scripts return nothing |
| `MachO.FileOffToVmaddr` | scripts/machosym.py:37-41 | the first segment whose part of the file holds the offset decides the address |
| `MachO.OneSegment` | scripts/machosym.py:37-41 | in one segment, offset k on either side is offset k on the other, for exactly the k within the size on that side |
| `MachO.SegmentsInFront` | scripts/machodis.py:71-76 | segments in front that do not hold the offset or address change nothing |
| `MachO.Locate` | scripts/machodis.py:71-76 | the first segment that holds the address decides the offset, and what is shown ends where that segment's part of the file ends, if that comes first |
| `MachO.OffsetOfAddress` | scripts/machodis.py:71-76 | for disjoint segments no larger in the file than in memory, the disassembler finds the offset that the symbolizer came from |
| `MachO.AddressOfOffset` | scripts/machosym.py:37-41 | the other way round the two agree exactly on the addresses that the file backs |
| `MachO.ResolveSymbol` | scripts/perf-guest-symbols.py:62-81 | the hand-written binary search returns the last entry in sort order whose address is at most the query |
| `MachO.BisectRight` | scripts/machosym.py:53-53 | the first index whose key is beyond the query |
| `MachO.Symbolize` | scripts/core-guest-stack.py:174-182 | the bisect lookup returns the same entry as the hand-written search |
| `MachO.NearestIsLast` | scripts/machosym.py:43-58 | the reference lookup gives an entry at most the query, and all entries behind it are beyond it |

## Left out

- PlistBuddy text is modelled as Unicode scalars; a line that is not valid UTF-8, for which creating a string returns null, is not modelled.
- Integers, reals and dates in values are parsed by `strtoll`, `strtod` and `strptime`, which are parameters (`Libc`); the string branch is spelled out, and a data value is kept as its text.
- Loading and saving XML, printing, the Clear command (a no-op in the source), help and argument handling, and the 200-byte line buffer are not part of this model; a loaded file and the order in which its keys are enumerated are parameters.
- CoreFoundation reference counts and failed allocations are not modelled.
- PlistEditor.Editor.ResolveC: a token that is looked up in an array has no vertical tab among its leading blanks and fits a C `int`, because the C library reads the rest differently or leaves it undefined.
- PlistPath.ReadIndexC: the same limit, since `atoi` is undefined beyond `int`.
- PlistText.ReadWordC: the word that is a lone quote, and a vertical tab among the blanks behind a word, are excluded, because the C version reads past its buffer or skips more; the caller that ignores a failed word in C is not modelled.
- PlistSessions.AddWritesString: says where the string is found only for an index that Add need not clamp; a clamped one goes to the slot that `PlistLaws.AddAllOrNothing` names.
- Base64 writes the alphabet as ranges and `|` of disjoint bits as `+`; reads that return short counts before the end of the input and I/O errors are not modelled.
- The PNG model takes compression and the checksum as parameters, decompression of compressed data being the identity; the decoders check no checksum.
- The chunk loop, which is the same text in both capture scripts, is modelled once; their row loops are modelled separately.
- PngZoom.ZoomFile: scales below 1, the ink map and the blackness verdict are not modelled.
- NibArchive keeps floating-point numbers as their bytes, and decoding text is a parameter.
- CoreNotes reads only NT_FILE; register notes, memory reads and the caches around the files are not modelled, and text decoding is a parameter.
- MachO starts from the segment and symbol lists: parsing load commands and symbol tables, universal binaries and running other tools are not modelled.
- The scripts that drive other programs and compare their output, the Wayland and loader sources, headers and stubs are not part of this model: they hold no logic beyond set differences and plumbing.
