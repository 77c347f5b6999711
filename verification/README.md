# Verified models of quasar's algorithms

Dafny models of the parts of the quasar framework that carry its hardest logic, with proofs of what they promise.
`dafny verify dfyconfig.toml` checks the whole project.

* **JSON text** (`Json/src/cJSON.c`). `Strings`, `Numerals`, `Printing` and `Parsing` define the text of a tree and
  the parser as functions. `ParseRuns` is the parser as it runs, with indices and loops; `PlainPrinting` prints into
  arrays sized beforehand and `PrintBuffers` into one growing buffer; `CMemory` has the C strings both write and
  `PowersOfTwo` the rounding of buffer sizes; `Minifying` is the in-place minifier. Printing and parsing undo each
  other, both printers write the same bytes, minifying turns formatted into unformatted text, and `MinifyParsing` shows
  that it keeps the tree of any text that the parser accepts. On texts that are cut off in the middle the code can step
  over the terminator; for each place the exact texts are given. `JsonText` is the grammar of sections 2 to 7 of
  RFC 8259 as a relation between texts and trees, apart from the code: `JsonTextPrinting` shows that every printed text
  is in it, `JsonTextParsing` that every text in it is parsed as what it denotes, `JsonTextAccepting` which other texts
  the parser takes, and `JsonTextMinifying` what minifying makes of JSON text with comments. `Decimals` has runs of
  digits and their values.
* **Child lists.** `ChildLists` relinks `next` and `prev` as the edits by index and the list sort do; `Sorting` is the
  sort on sequences. The sort leaves the new head's `prev` stale, and a method shows what a detach then does.
  `PatchLinks` follows this through patch runs, where a "test" sorts; `ListLinks` says what its flag means for the
  linked nodes of one list.
* **JSON Pointer, Patch and Merge Patch** (`Json/src/cJSON_Utils.c`; RFC 6901, RFC 6902 section 4, RFC 7396 section 2).
  `Trees` has the values and their meaning up to member order, `Comparing` the order-insensitive comparison and
  `Likeness` what it decides, `Pointers` lookup and construction, `PointerPlaces` where a pointer leads, `Patching`
  application and generation, `PatchMeaning` and `PatchReach` what every operation does to a document, `PatchEdits`,
  `PatchProofs`, `PatchValues` and `PatchRoundTrip` the round trip of generated patches, `PatchRuns` the code with its
  loops and in-place documents,
  `Merging`, `MergeValues`, `MergeGeneration`, `MergeFates` and `MergeRoundTrip` merge patches. Patch generation is not
  always undone by application: the round trips say exactly when it is, for names in any case.
* **Calculated variables** (`CalculatedVariables/`, `AddressSpace/src/ChangeNotifyingVariable.cpp`).
  `CalculatedVariables` has address-space variables, parser variables and calculated variables as objects that notify
  each other recursively, `CalculatedEngine` registration, instantiation, pruning and mutex set-up, `Graphs` and
  `Domains` connectedness and the depth-first search, `Quiescence` what is published when a source update returns, and
  `EngineRuns` whole runs: any configuration, start-up, and any changes of sources after it. `RunModel` says without
  any objects what a run should publish, and the engine is proved to publish exactly that.
* **Thread pool** (`Common/src/QuasarThreadPool.cpp`). `ThreadPools` is a step system of workers, callers and
  the destructor, `ThreadPoolRuns` what holds over all its interleavings, `ThreadPoolWork` that accepted jobs get done,
  `ThreadPoolStops` when the destructor returns.
* **Content order** (`Configuration/Configurator.h`, `ConfigurationDecorationUtils.h`). `ContentOrders` has the
  validator and the decorator's `push_back`.

`Bytes`, `Members`, `Options`, `Sequences` and `Walking` hold what several modules share.

Names are compared the way the code does it: ignoring ASCII case in lookups, sorting and comparing, with `strcmp` in
the generation of merge patches. `WellNamed` says that the names in each object are distinct ignoring case. Where the
code steps over a terminator or dereferences a null pointer, a function gives `None`, `Overrun` or `Undefined` and a
method says so.

Where the code and its comments differ, the model follows the code. The comment above `CalculatedVariable::update`
announces an uncertain status when status inputs are not good; the code looks at the states of the value inputs only
and publishes bad when the status formula gives 0 (`CalculatedVariables/src/CalculatedVariable.cpp:64-99`).
A bad status that comes with a value is taken as good by the listeners
(`CalculatedVariables/src/CalculatedVariablesChangeListener.cpp:43-60`); `Quiescence.StatePassedOn` states this.

Three findings about the code are stated as lemmas: `cJSON_Minify` takes `/*/` for a whole comment
(`JsonTextMinifying.SlashEndsComment`), a "move" to a place without a parent loses the value it has taken out
(`PatchMeaning.MoveMeans`), and an added value is not always found under the path it was added at
(`PatchReach.AddedIsReached`).

A variable's `rank` is a proof device: a formula can only name variables registered before, so the rank of its output
is above the ranks of its inputs, and propagation ends.

## Model

| member | source | states |
|---|---|---|
| Parsing.PrintParseRoundTrip | Json/src/cJSON.c:326-661 | for every tree whose numbers are 32-bit integers, parsing the formatted or the unformatted text gives the same tree back and leaves no text over; `JsonTextPrinting.PrintIsJson` and `JsonTextParsing.JsonIsParsed` tie both to the grammar of RFC 8259 |
| JsonTextPrinting.PrintIsJson | Json/src/cJSON.c:145-661 | every printed text, in both formats and at any depth, is JSON text by sections 2 to 7 of RFC 8259, stated with every byte written out, and denotes the printed tree; the unformatted text has nothing between its tokens, the formatted one exactly a space after a comma in an array, a tab after a colon, and a line break and one tab per level before every name and every brace that closes |
| JsonTextPrinting.PrintDenotes | Json/src/cJSON.c:375-661 | the same for every value inside a text, at its depth |
| JsonTextParsing.JsonIsParsed | Json/src/cJSON.c:326-551 | every JSON text is parsed as the tree that it denotes, and wholly: white space, escapes including `\/`, hexadecimal digits in both cases, surrogate pairs as UTF-8, fractions and exponents by their exact value |
| JsonTextParsing.FrontIsParsed | Json/src/cJSON.c:326-340 | in front of anything that does not continue a number: without the demand for the end of the text exactly what follows the value is left over; with it, what follows must be white space, and else the error is at its first other byte |
| JsonTextParsing.ValueParsed | Json/src/cJSON.c:360-551 | the same for a value inside a text, before anything that does not continue a number |
| JsonTextParsing.NumberParsed | Json/src/cJSON.c:96-115 | the text of a number is read as the number that it spells: sign, whole part, fraction and power of ten, as exact reals |
| JsonTextParsing.StringParsed | Json/src/cJSON.c:193-252 | a literal is read as the string that it spells, and the parser stops behind its closing quote |
| JsonTextParsing.ContentsDecode | Json/src/cJSON.c:200-249 | what stands between the quotes is decoded to the string that it spells by section 7 of RFC 8259 and section 3 of RFC 3629 |
| JsonTextParsing.DenotesOnce | Json/src/cJSON.c:326-551 | a JSON text denotes one tree only |
| JsonTextAccepting.ParsesAccepted | Json/src/cJSON.c:193-551 | the parser takes a whole text exactly when it is JSON text or loose text, and gives what the text denotes: loosely any byte up to 32 is white space, numbers may have a zero in front or lack digits before the point or in the exponent, strings may hold any byte but a quote and any letter after a backslash, and a string at the top may lack its closing quote; every other text is turned down |
| JsonTextAccepting.ValueAccepted | Json/src/cJSON.c:360-551 | whatever a value is parsed from is a text that denotes it, loosely at least |
| JsonTextAccepting.NumberAccepted | Json/src/cJSON.c:96-115 | the bytes that the number loops take are a number, loosely at least, with the value that they give |
| JsonTextAccepting.StringAccepted | Json/src/cJSON.c:193-252 | the same for literals, closed or cut off by the end of the text |
| JsonTextMinifying.MinifyCompacts | Json/src/cJSON.c:739-754 | minifying JSON text, with white space and with comments of both kinds between its tokens, gives compact JSON text that denotes the same tree and is parsed to it |
| JsonTextMinifying.ValueMinified | Json/src/cJSON.c:739-754 | the same for a value inside a text |
| JsonTextMinifying.BlockCommentEnds | Json/src/cJSON.c:749 | a comment between slash and asterisk is taken to end where it does exactly when no slash follows its first asterisk |
| JsonTextMinifying.SlashEndsComment | Json/src/cJSON.c:749 | of the comment `/*/*/` the code leaves `*/` in the text |
| Parsing.ParsePrint | Json/src/cJSON.c:360-661 | at any depth, whatever follows: parsing a printed value consumes exactly its text, provided what follows does not continue a number |
| Parsing.ParseValue | Json/src/cJSON.c:360-372 | a value that is parsed takes at least one byte, so the mutual recursion with arrays and objects ends |
| Parsing.ParseString | Json/src/cJSON.c:193-252 | a parsed literal takes at least one byte |
| Parsing.ParseQuoted | Json/src/cJSON.c:193-311 | parsing the printed form of any byte string without NUL gives that string and stops after its closing quote |
| Parsing.ParseDecimal | Json/src/cJSON.c:96-115 | reading the decimal text of a 32-bit number gives that number and stops where its digits stop |
| ParseRuns.ParseWithOpts | Json/src/cJSON.c:326-340 | the document parser as it runs, with indices and loops: same tree, same rest or same error position as `Parsing.ParseDocument`, with and without the demand for the end of the text |
| ParseRuns.ParseValueFrom | Json/src/cJSON.c:360-372 | the dispatch on the first bytes gives what `Parsing.ParseValue` defines, which `JsonTextParsing.ValueParsed` and `JsonTextAccepting.ValueAccepted` describe by the grammar |
| ParseRuns.ParseItemsFrom | Json/src/cJSON.c:420-433 | the loop over array items, one separator at a time, gives what the recursive definition gives, errors included |
| ParseRuns.ParseArrayFrom | Json/src/cJSON.c:409-434 | arrays, the empty one included |
| ParseRuns.ParseFieldsFrom | Json/src/cJSON.c:525-550 | the loop over members gives what the recursive definition gives, errors included |
| ParseRuns.ParseFieldFrom | Json/src/cJSON.c:527-532 | one name, colon and value with the white space between them |
| ParseRuns.ParseObjectFrom | Json/src/cJSON.c:517-551 | objects, the empty one included |
| ParseRuns.ParseNumberFrom | Json/src/cJSON.c:96-115 | the digit loops for sign, whole part, fraction and exponent give what `Parsing.ParseNumber` defines |
| ParseRuns.ParseStringFrom | Json/src/cJSON.c:193-252 | both loops of the literal: the decoded bytes, the index after the literal, or the failure |
| ParseRuns.FindEnd | Json/src/cJSON.c:198 | the scan finds the closing quote or the end of the text and counts the units of the buffer; it steps over the terminator exactly when every quote left is escaped and an odd number of backslashes ends the text |
| Strings.ScanOverruns | Json/src/cJSON.c:198 | the same condition for the scan as a function, in both directions |
| Parsing.DocumentInside | Json/src/cJSON.c:193-340 | for any text: what is left over and every error position lie inside the text, and only a text that ends in a backslash can lead the parser beyond it |
| Parsing.OverrunExample | Json/src/cJSON.c:198 | a quote and a backslash lead the scan over the terminator |
| ParseRuns.DecodeInto | Json/src/cJSON.c:200-249 | whatever the literal contains, the decoder stays within the buffer sized by the scan, also where it gives up half-way; when it succeeds the buffer holds the decoded bytes and a terminator |
| ParseRuns.ReadEscape | Json/src/cJSON.c:219-232 | the index tests around a `\u` escape accept exactly the escapes and pairs that lie inside the literal |
| ParseRuns.PutUtf8 | Json/src/cJSON.c:234-242 | writing backwards from the last byte gives the UTF-8 form of section 3 of RFC 3629 |
| Strings.DecodeEscape | Json/src/cJSON.c:193-311 | unescaping undoes escaping, for every byte string without NUL |
| Strings.DecodedFits | Json/src/cJSON.c:198-248 | a literal never decodes to more bytes than the scan counted |
| Strings.EscapesBecomeUtf8 | Json/src/cJSON.c:178-245 | a text of `\u` escapes and surrogate pairs decodes to bytes that, read as UTF-8, give the same code points |
| Strings.ScanEscape | Json/src/cJSON.c:198 | the scan of an escaped string stops exactly at its closing quote |
| Strings.EscapedLengthExact | Json/src/cJSON.c:282 | the length computed before allocating is the length of the escaped text |
| Strings.EscapeTable | Json/src/cJSON.c:285-308 | the printed bytes of every character: seven short escapes, `\u` and four digits with lower-case letters for the other control bytes, and the byte itself |
| Strings.PlainEscape | Json/src/cJSON.c:268-280 | the fast path without escapes writes the same text |
| CMemory.QuotedSize | Json/src/cJSON.c:268-285 | the two counting loops: whether the fast path applies, and exactly the bytes that literal and terminator take |
| CMemory.PutQuoted | Json/src/cJSON.c:275-310 | the literal and its terminator fill exactly the room that was counted |
| CMemory.StrLen | Json/src/cJSON.c:138-144 | the length of the terminated text that starts at or before an offset and ends after it |
| PowersOfTwo.Pow2gt | Json/src/cJSON.c:117 | for 1 to 2^30 the result is the least power of two that is not below the argument |
| PowersOfTwo.SmearStep | Json/src/cJSON.c:117 | one shift-and-or doubles the run of ones below the highest bit |
| PowersOfTwo.AllOnes | Json/src/cJSON.c:117 | a number whose bits are all ones is one below a power of two |
| PrintBuffers.PrintBuffer.Ensure | Json/src/cJSON.c:121-136 | room for the bytes asked for, all earlier bytes kept, the buffer unchanged when it is large enough and otherwise the next power of two |
| PrintBuffers.PrintBuffer.Update | Json/src/cJSON.c:138-144 | finds the end of the text that was printed last, also where the printing moved the offset itself |
| PrintBuffers.PrintBuffer.PrintValue | Json/src/cJSON.c:375-391 | the text of the value follows what the buffer held, byte for byte, terminated, and the offset lies inside it |
| PrintBuffers.PrintBuffer.PrintArray | Json/src/cJSON.c:437-471 | the same for arrays, item by item with separators |
| PrintBuffers.PrintBuffer.PrintObject | Json/src/cJSON.c:553-610 | the same for objects, member by member with the layout of the format |
| PrintBuffers.PrintBuffer.PrintString | Json/src/cJSON.c:255-311 | the same for string literals |
| PrintBuffers.PrintBuffer.PrintNumber | Json/src/cJSON.c:147-162 | the same for 32-bit numbers |
| PrintBuffers.DecimalFits | Json/src/cJSON.c:157-162 | a 32-bit number fits the 21 bytes reserved for it |
| PrintBuffers.PrintBuffered | Json/src/cJSON.c:349-356 | with any first size of at least 1 the result is the text that unbuffered printing gives, for both formats |
| PlainPrinting.PrintValue | Json/src/cJSON.c:392-406 | unbuffered printing gives a fresh array with that text and a terminator |
| PlainPrinting.PrintArray | Json/src/cJSON.c:472-513 | the length added up from the parts has room for the array's text |
| PlainPrinting.ComposeArray | Json/src/cJSON.c:501-511 | putting the printed items together stays within that length and gives the array's text |
| PlainPrinting.PrintObject | Json/src/cJSON.c:611-659 | the length added up from names and values has room for the object's text |
| PlainPrinting.ComposeObject | Json/src/cJSON.c:642-659 | putting names and values together stays within that length and gives the object's text |
| PlainPrinting.ItemsFit | Json/src/cJSON.c:480-489 | the items' text is never longer than the sum of their lengths and separators |
| PlainPrinting.FieldsFit | Json/src/cJSON.c:622-632 | the members' text is never longer than the sum computed for it |
| Minifying.MinifyUnformats | Json/src/cJSON.c:739-754 | minifying the formatted text of any tree gives exactly its unformatted text |
| Minifying.PrintedBecomes | Json/src/cJSON.c:739-754 | the same for every part of a text, whatever follows it |
| Minifying.Minify | Json/src/cJSON.c:739-754 | what is left is never longer than the text |
| Minifying.MinifyOverruns | Json/src/cJSON.c:739-754 | the loop steps over the terminator exactly when the text, read byte by byte, ends inside a literal or a comment between asterisks |
| Minifying.OverrunExamples | Json/src/cJSON.c:749-750 | an open comment and an open literal, for example |
| MinifyParsing.MinifyKeepsTree | Json/src/cJSON.c:326-754 | for every text that the parser accepts as a whole, not only for printed ones: what minifying leaves is parsed to the same tree |
| MinifyParsing.ValueKept | Json/src/cJSON.c:360-754 | the same for a value inside a text, whatever separator follows it |
| MinifyParsing.NumberBefore | Json/src/cJSON.c:96-115 | a number reads the same in front of any text that does not go on with it |
| Minifying.MinifyInPlace | Json/src/cJSON.c:739-754 | on every text that ends outside literals and `/*` comments the loop in place gives that result and a terminator; the bytes still to be read are never overwritten |
| Minifying.CopyLiteral | Json/src/cJSON.c:750 | a string literal is copied unchanged up to and with its closing quote, escaped quotes included |
| Minifying.CopyByte | Json/src/cJSON.c:751 | writing at or before the reading index leaves the rest of the text as it was |
| ChildLists.Parent.Add | Json/src/cJSON.c:675 | appends the node, and the chain it may lead, to the child list; the first child's `prev` is as it was, or the node's own in an empty list |
| ChildLists.Parent.Insert | Json/src/cJSON.c:688-689 | inserts before the child at an index, a negative one counting as 0, overwriting the node's links; past the end appends the node and the chain it may lead |
| ChildLists.Parent.Replace | Json/src/cJSON.c:690-692 | puts a node in the place of the child at an index and unlinks the old one; past the end nothing happens |
| ChildLists.Parent.Detach | Json/src/cJSON.c:681-682 | takes the child at an index out, unlinked, and keeps the list well formed; a list whose head has a stale `prev` keeps its links if another child is taken, and what happens if the head is taken |
| ChildLists.Parent.Locate | Json/src/cJSON.c:681 | the walk by index ends at that child or at the end |
| ChildLists.SortList | Json/src/cJSON_Utils.c:306-342 | the list sort on linked nodes: the same nodes in the order of `Sorting.SortBy`, next-chain ended by null, `prev` right everywhere but at the head, whose `prev` stays as it was |
| ChildLists.MergeLists | Json/src/cJSON_Utils.c:321-339 | the merge relinks two sorted lists into the merge of their sequences |
| ChildLists.Split | Json/src/cJSON_Utils.c:317 | cuts the list in two well-linked halves |
| ChildLists.Middle | Json/src/cJSON_Utils.c:316 | the two advancing pointers find the first node of the second half, rounded up |
| ChildLists.IsAscending | Json/src/cJSON_Utils.c:312-313 | the first loop recognises exactly the strictly ascending lists |
| ChildLists.Parent.Sort | Json/src/cJSON_Utils.c:344 | sorting an object's children; a well-formed list stays so exactly when its first child stays first |
| ChildLists.StaleHeadBreaksDetach | Json/src/cJSON_Utils.c:306-344 | after sorting `b`, `a`, detaching the first child leaves a node that is its own successor |
| Sorting.SortPermutes | Json/src/cJSON_Utils.c:306-342 | sorting gives a permutation |
| Sorting.SortSorts | Json/src/cJSON_Utils.c:306-342 | in non-decreasing order of the names ignoring ASCII case |
| Sorting.SortDistinct | Json/src/cJSON_Utils.c:306-342 | strictly ascending and still distinct when the names are distinct ignoring case |
| Sorting.SortTurnsEqual | Json/src/cJSON_Utils.c:306-342 | elements with one key come out in the opposite order, however many there are |
| Bytes.StrCaseCmp | Json/src/cJSON_Utils.c:7-12 | the comparison loop gives 0 exactly on names that agree byte by byte up to the two cases of an ASCII letter, and otherwise the order of the lower-case forms |
| Bytes.LowerDecides | Json/src/cJSON_Utils.c:10-11 | two bytes have one lower-case form exactly when they are equal or the same ASCII letter in its two cases, and no lower-case form is an upper-case letter |
| Bytes.LowerAllDecides | Json/src/cJSON_Utils.c:10-11 | the same for names |
| Bytes.CmpBefore | Json/src/cJSON_Utils.c:10-11 | the order of bytes: negative exactly for a proper prefix, or for a smaller byte at the first difference |
| Bytes.CaseCmpDecides | Json/src/cJSON_Utils.c:7-12 | both together, for the comparison that ignores case |
| Likeness.CompareLikeness | Json/src/cJSON_Utils.c:115-140 | comparing gives 0 exactly on trees that are alike: equal scalars, arrays item by item, and of two objects each member with a partner in the other, its name the same up to ASCII case and its value alike |
| Likeness.AlikeMeans | Json/src/cJSON_Utils.c:115-140 | being alike is having one meaning |
| Likeness.ScalarCodes | Json/src/cJSON_Utils.c:117-121 | -1 for different types, -2 for different numbers, -3 for different strings |
| Likeness.ArrayCode | Json/src/cJSON_Utils.c:122-123 | of two arrays the first pair of items that differs gives its own code, and behind equal items a difference in length -4 |
| Likeness.ObjectCode | Json/src/cJSON_Utils.c:124-136 | of two objects the first members in the order of names that differ decide: -6 for different names, else the code of their values, and behind equal members a difference in number -5 |
| Likeness.FindsSameName | Json/src/cJSON.c:42-43 | the lookup finds the first member of that name, ignoring ASCII case |
| Comparing.CompareDecides | Json/src/cJSON_Utils.c:115-140 | comparing gives 0 exactly when the trees have one meaning, given names distinct ignoring case; `Likeness.CompareLikeness` says without lower-case forms which trees these are |
| Comparing.CompareReorders | Json/src/cJSON_Utils.c:115-140 | comparing only reorders members: both trees keep their meaning, names taken exactly |
| Comparing.CompareTrees | Json/src/cJSON_Utils.c:115-140 | the comparison as it runs gives that code and those reordered trees |
| Comparing.WalkItems | Json/src/cJSON_Utils.c:122-123 | the walk over two arrays |
| Comparing.WalkFields | Json/src/cJSON_Utils.c:127-135 | the walk over two sorted member lists |
| Pointers.PointerRoundTrip | Json/src/cJSON_Utils.c:39-90 | a pointer is built for exactly the nodes of the tree, and following it leads to that node and no other |
| Pointers.DecodeEncode | Json/src/cJSON_Utils.c:28-37 | decoding undoes the `~0` and `~1` encoding, for every string |
| Pointers.MatchesEncoded | Json/src/cJSON_Utils.c:15-24 | an encoded token matches exactly the names equal to it ignoring ASCII case |
| Pointers.FollowName | Json/src/cJSON_Utils.c:82-86 | a member's encoded name leads to that member |
| Pointers.FollowIndex | Json/src/cJSON_Utils.c:76-81 | an item's index leads to that item |
| Pointers.GetPointer | Json/src/cJSON_Utils.c:72-90 | a pointer that is followed gives a node of the tree; which one, `PointerPlaces.GetPointerLeads` says |
| PointerPlaces.GetPointerLeads | Json/src/cJSON_Utils.c:72-90 | following a pointer ends at a node exactly when the pointer leads there: token by token, an index in plain digits within the array, or the first member that the token spells with `~0` and `~1`, ignoring ASCII case; from a scalar, past the end of an array or with any other token it leads nowhere |
| PointerPlaces.MatchNames | Json/src/cJSON_Utils.c:15-24 | a token as it stands matches exactly the names that it spells, ignoring ASCII case |
| Decimals.AtoiReads | Json/src/cJSON_Utils.c:108 | the index that a token is taken for: the digits behind white space and a sign, up to the first other byte |
| PatchRuns.FollowPointer | Json/src/cJSON_Utils.c:72-90 | the loop of the lookup, node and text advancing together, gives what `Pointers.GetPointer` defines |
| PatchRuns.MatchName | Json/src/cJSON_Utils.c:15-24 | the two advancing indices decide whether name and token match |
| PatchRuns.InplaceDecode | Json/src/cJSON_Utils.c:93-98 | for names that do not end in an odd number of `~`: decoding in place gives the decoded name and a terminator and leaves what follows the text alone |
| Pointers.DecodeOverruns | Json/src/cJSON_Utils.c:93-98 | decoding steps over the terminator exactly for names that end in an odd number of `~` |
| Pointers.OverrunExample | Json/src/cJSON_Utils.c:93-98 | `~` overruns, `~~` decodes to `/` |
| PatchRoundTrip.PatchRoundTrip | Json/src/cJSON_Utils.c:142-303 | applying the generated patches to a reordered copy of `from` succeeds and compares equal to `to` exactly when both roots are containers of one type, or nothing differs, and no compared array shrinks by more than one item |
| PatchRoundTrip.GeneratedPatchOutcome | Json/src/cJSON_Utils.c:142-303 | the exact outcome of that run for any two trees: which value results, or that the root path is not handled |
| PatchValues.PatchedIsWanted | Json/src/cJSON_Utils.c:256-267 | the resulting value is the wanted one exactly when no compared array shrinks by more than one item |
| PatchRoundTrip.ShrinkByTwoFails | Json/src/cJSON_Utils.c:262 | from `[1,2,3]` to `[1]` the run succeeds and gives `[1,3]` |
| PatchProofs.RemovalsSkip | Json/src/cJSON_Utils.c:262 | removing at rising indices drops every other surplus item |
| PatchEdits.LiftEdit | Json/src/cJSON_Utils.c:142-206 | an edit whose path goes on below a child acts on that child alone |
| PatchEdits.SplitUnder | Json/src/cJSON_Utils.c:104 | splitting a longer path at its last slash splits its tail |
| PatchProofs.EditsPrefix | Json/src/cJSON_Utils.c:240-295 | the edits below a path are the edits at the root with that path put in front |
| PatchRuns.PatchList.CompareToPatch | Json/src/cJSON_Utils.c:240-295 | the comparison as it runs appends the patches that `Patching.Edits` defines, in order |
| PatchRuns.PatchList.CompareItemsToPatch | Json/src/cJSON_Utils.c:256-266 | the three loops over two arrays |
| PatchRuns.PatchList.CompareFieldsToPatch | Json/src/cJSON_Utils.c:268-291 | the merge loop over two sorted member lists |
| PatchRuns.PatchList.Add | Json/src/cJSON_Utils.c:222-236 | one patch appended, with the encoded suffix when there is one |
| PatchRuns.GenerateAll | Json/src/cJSON_Utils.c:298-303 | patch generation as it runs gives `Patching.GeneratePatches` |
| PatchRuns.Document.Apply | Json/src/cJSON_Utils.c:142-206 | one patch applied to a document in place: new document and code, for every operation and every malformed patch; the outcome obeys `PatchMeaning.Obeys` and is undefined exactly where `PatchMeaning.Sound` fails; and what it does to the document's child lists |
| PatchRuns.Document.Detach | Json/src/cJSON_Utils.c:100-113 | detaching at a path; a missing target is no error |
| PatchRuns.Document.AddValue | Json/src/cJSON_Utils.c:182-205 | adding a value at a path, `-` and indices in arrays, names in objects |
| PatchRuns.Document.Test | Json/src/cJSON_Utils.c:155 | the "test" as it runs: its answer is 0 exactly when the node at the path is alike to the value |
| PatchRuns.Document.ApplyAll | Json/src/cJSON_Utils.c:209-220 | patches applied in turn, the first code other than 0, that of a failed "test" included, ending the run; whether the document's lists are still what the result says |
| PatchMeaning.ApplyObeys | Json/src/cJSON_Utils.c:142-206 | every patch does what its operation means, on the bytes of its members: "test" gives 0 exactly when the node is alike to the value and reorders members at most; "remove", "replace" and "move" take exactly the child that the path names; "add", "replace", "move" and "copy" put the value there; nothing else changes; missing members, targets and parents give 2, 3, 4, 5, 7 and 9; and when the code is undefined, in both directions |
| PatchMeaning.TestMeans | Json/src/cJSON_Utils.c:155 | a "test" that finds its node gives 0 exactly when node and value are alike, and leaves the document equal up to member order |
| PatchMeaning.DetachMeans | Json/src/cJSON_Utils.c:100-113 | what is detached, and when nothing is: the item of that index, the later ones moving up, or the first member of that name, the others staying in order |
| PatchMeaning.AddMeans | Json/src/cJSON_Utils.c:182-205 | where a value goes: at the end for `-`, before the item of that index or at the end, or at the end of the members after the first of that name has gone; 9 without a parent |
| PatchMeaning.MoveMeans | Json/src/cJSON_Utils.c:166-176 | a "move" takes its value out before it looks for the parent, so that with code 9 the value is lost |
| PatchMeaning.CopyMeans | Json/src/cJSON_Utils.c:166-176 | a "copy" puts what its pointer leads to, and gives 5 when it leads nowhere |
| PatchMeaning.ReplaceMeans | Json/src/cJSON_Utils.c:160-181 | a "replace" takes out what is there, if anything, and then adds; without a value what was there is gone and the code is 7 |
| PatchMeaning.AppliesInOrder | Json/src/cJSON_Utils.c:209-220 | a list of patches: each applied to what the last one left, up to the first with another code than 0 |
| PatchReach.AddedIsReached | Json/src/cJSON_Utils.c:142-206 | after a value has been added the path leads to it exactly when it starts with a slash and its last token is an index in plain digits up to the length of the array, or a name in an object with every tilde starting a proper escape |
| PatchReach.MovedIsReached | Json/src/cJSON_Utils.c:166-205 | the same for "move": what was at `from` is taken out and is then where the path leads |
| PatchReach.CopiedIsReached | Json/src/cJSON_Utils.c:166-205 | the same for "copy" |
| PatchReach.TakenIsGone | Json/src/cJSON_Utils.c:100-113 | where the path of something taken leads afterwards: nowhere from an object, and from an array to the item that came next, if any |
| PatchReach.Elsewhere | Json/src/cJSON_Utils.c:142-206 | nodes that are neither above, at nor below the parent are the same before and after |
| PatchReach.ApplyEachNamed | Json/src/cJSON_Utils.c:209-220 | a run of patches keeps the names in every object distinct |
| PatchRoundTrip.NoPatchesWhenAlike | Json/src/cJSON_Utils.c:240-303 | no patches are generated exactly for trees that are alike |
| ListLinks.Perform | Json/src/cJSON_Utils.c:100-344 | one sort, append or detach on linked nodes: short of breaking, the list is what the sequence says, and well formed exactly as the flag tells; where the flag breaks, the links do |
| PatchLinks.SortedStays | Json/src/cJSON_Utils.c:115-140 | comparing leaves a tree whose objects are in order exactly as it is, so that a "test" cannot harm its lists |
| PatchLinks.LeavesSorted | Json/src/cJSON_Utils.c:115-140 | a "test" that succeeds leaves every object that it has compared in order, at every depth |
| PatchLinks.NoTestIntact | Json/src/cJSON_Utils.c:209-220 | patches without a "test" never harm the lists of the document |
| PatchLinks.GeneratedIntact | Json/src/cJSON_Utils.c:209-303 | nor do generated patches, whatever they are applied to |
| PatchLinks.TestThenRemoveBreaks | Json/src/cJSON_Utils.c:100-155 | on `{"b":null,"a":null}` a "test" of the root and the removal of `/a` do |
| Merging.MergeIsRfc7396 | Json/src/cJSON_Utils.c:346-363 | merging computes the function of section 2 of RFC 7396, names matched ignoring ASCII case |
| Merging.MergeIdempotent | Json/src/cJSON_Utils.c:346-363 | the same patch applied twice gives the same tree, member order included, as applied once |
| Merging.MergeShape | Json/src/cJSON_Utils.c:351-361 | the order of the merged members: those the patch does not name, then those it puts in |
| Merging.MergeMembersLookup | Json/src/cJSON_Utils.c:351-361 | what every name holds after the loop over the patch |
| MergeFates.MergeSays | Json/src/cJSON_Utils.c:351-361 | the same for a patch that names a member more than once: every name holds what all its entries lead to, in their order |
| MergeFates.GeneratedSays | Json/src/cJSON_Utils.c:367-392 | what the generated patch says about each name, by how the walk over both sorted lists reaches it: nothing, a null, a value, a null and then a value, a value and then a null, or the patch between two members |
| MergeRoundTrip.MergeRoundTrip | Json/src/cJSON_Utils.c:346-395 | for names in any case: the patch is NULL exactly when both trees are objects that compare equal and have the same names byte for byte; otherwise merging it into a reordered copy of `from` compares equal to `to` exactly when no member of `to` is put and then deleted, a member that the walk meets is equal or not null and restored in turn, and every other one is not null and free of nulls |
| MergeRoundTrip.NoPatch | Json/src/cJSON_Utils.c:367-393 | when the patch is NULL, in both directions |
| MergeRoundTrip.MergeGivesWanted | Json/src/cJSON_Utils.c:346-395 | the same condition for the meanings of the trees, at every depth |
| MergeRoundTrip.ReorderedRestores | Json/src/cJSON_Utils.c:115-140 | the condition does not depend on the order of members, which generation changes as it goes |
| MergeRoundTrip.GenerateMeaning | Json/src/cJSON_Utils.c:365-395 | the patch names each member once exactly when the walk meets every name that both objects have, wherever it goes; then it is the patch between the two values |
| MergeRoundTrip.AlignedRestores | Json/src/cJSON_Utils.c:346-395 | then the round trip succeeds exactly when `to` has no null member that `from` lacks |
| MergeRoundTrip.LowerAligned | Json/src/cJSON_Utils.c:370-376 | names without upper-case ASCII letters are always met |
| MergeRoundTrip.LowerRoundTrip | Json/src/cJSON_Utils.c:346-395 | so for such names the round trip depends on nulls alone |
| MergeValues.MergeRestores | Json/src/cJSON_Utils.c:346-395 | on values: merging the patch between two values restores the second exactly when it has no new null member |
| MergeValues.NoMergeNeeded | Json/src/cJSON_Utils.c:393 | on values: no patch exactly for equal objects |
| MergeRoundTrip.UpperCaseLosesMember | Json/src/cJSON_Utils.c:370-376 | from `{"a":1}` to `{"A":2}` sorting and merging disagree and the member is lost |
| MergeGeneration.ApplyMergePatch | Json/src/cJSON_Utils.c:346-363 | merging as it runs gives `Merging.MergePatch`; a NULL patch gives NULL |
| MergeGeneration.Generate | Json/src/cJSON_Utils.c:365-395 | generation as it runs gives `MergeGeneration.GenerateMergePatch` |
| Members.WithoutLookup | Json/src/cJSON.c:684 | detaching a name removes that name and nothing else |
| Members.AppendLookup | Json/src/cJSON.c:676 | adding a new name adds that name and nothing else |
| Members.FindNameLookup | Json/src/cJSON.c:666 | the first member of a name ignoring case |
| CalculatedVariables.Variable.SetValue | AddressSpace/src/ChangeNotifyingVariable.cpp:52-64 | when the call returns the value is stored, every listener has it, exactly what lies below the variable has been updated, and every calculated variable outside the given stale ones publishes its formula over its inputs' current readings; the recursion ends because ranks grow |
| CalculatedVariables.Variable.CallListener | CalculatedVariables/src/CalculatedVariablesChangeListener.cpp:38-73 | each branch hands on the reading that the data value means |
| CalculatedVariables.Variable.Notify | AddressSpace/src/ChangeNotifyingVariable.cpp:57-62 | the loop over the listeners |
| CalculatedVariables.ParserVariable.SetValue | CalculatedVariables/src/ParserVariable.cpp:48-71 | stores value and state, updates everything that uses them, takes its own mutex, and no other once domains are in step |
| CalculatedVariables.ParserVariable.UpdateNotified | CalculatedVariables/src/ParserVariable.cpp:60-64 | the loop over the calculated variables to update |
| CalculatedVariables.CalculatedVariable.Update | CalculatedVariables/src/CalculatedVariable.cpp:68-112 | publishes, as `Justifies` says of what the inputs hold: with good inputs the formula's value, and the status good unless the status formula gives 0; otherwise no value and the first state that is not good; then everything that depends on it is updated |
| CalculatedVariables.CalculatedVariable.Evaluate | CalculatedVariables/src/CalculatedVariable.cpp:72-108 | the loop over the inputs and the two formulas give `Published` of the current readings, and that is what `Justifies` calls for |
| CalculatedVariables.JustifiesMeans | CalculatedVariables/src/CalculatedVariable.cpp:72-108 | told from the parser variables: when all inputs are good the formula gets their values in order, the status is good exactly when there is no status formula or it does not give 0; else the first input that is not good decides between waiting for initial data and bad |
| CalculatedVariables.PublishedPublishes | CalculatedVariables/src/CalculatedVariable.cpp:72-108 | `Published` does what `Publishes` calls for |
| CalculatedVariables.PublishesOnce | CalculatedVariables/src/CalculatedVariable.cpp:72-108 | and nothing else does |
| CalculatedVariables.ReceivedMeans | CalculatedVariables/src/CalculatedVariablesChangeListener.cpp:38-73 | only numbers and truth values arrive as good, whatever other status comes with them |
| Quiescence.PublishesDenoted | CalculatedVariables/src/CalculatedVariable.cpp:64-112 | in a settled network every calculated variable that has been updated publishes what its formulas give on the readings of its sources, worked out recursively, shared ancestors included; an input with an initial value and no update yet counts as a source |
| Quiescence.EngineUpToDate | CalculatedVariables/src/CalculatedVariable.cpp:64-112 | this holds for every formula of an engine between any two of its operations |
| EngineRuns.Serve | Server/src/BaseQuasarServer.cpp:439-453 | a whole run, from an empty engine through any definitions and source changes, start-up, and any changes after it: it fails exactly when a formula asks for a name not defined before it; otherwise every variable publishes exactly what `RunModel` works out from the commands and changes alone, every formula that has been evaluated publishes what `Publishes` calls for on the values shown by the variables it names, the engine keeps exactly the variables that formulas name, and mutexes are shared exactly within domains |
| EngineRuns.Configure | CalculatedVariables/src/CalculatedVariablesEngine.cpp:51-258 | the same before start-up: when it fails, and otherwise exactly the defined variables in order, each with the inputs its formulas name, the sources with their last values, and every variable publishing what `RunModel` says |
| EngineRuns.Execute | CalculatedVariables/src/CalculatedVariablesEngine.cpp:51-258 | one definition or change takes the network from mirroring one world of `RunModel` to mirroring the next, or fails exactly on an unknown name |
| EngineRuns.Change | AddressSpace/src/ChangeNotifyingVariable.cpp:52-64 | a source change while the server runs: the next world, every variable publishing what it says, and at most one mutex taken, that of the source's listeners |
| EngineRuns.Start | Server/src/BaseQuasarServer.cpp:439-453 | start-up drops exactly the variables that no formula names and changes nothing of what is published |
| EngineRuns.AllShown | CalculatedVariables/src/CalculatedVariable.cpp:64-112 | in any network that mirrors a world every variable publishes the value worked out from the definitions, the last source values and the initial values still held |
| EngineRuns.ReachesBelow | CalculatedVariables/src/ParserVariable.cpp:48-71 | what a change updates, through listeners and notified formulas, is what it reaches by the definitions |
| EngineRuns.InputsFound | CalculatedVariables/src/CalculatedVariablesEngine.cpp:59-88 | the inputs of a formula are the first variables of the names it asks for, each once |
| EngineRuns.NotifiesUsed | CalculatedVariables/src/CalculatedVariablesEngine.cpp:59-88 | a variable notifies something exactly when some formula names it |
| RunModel.NeverFits | CalculatedVariables/src/CalculatedVariablesEngine.cpp:73-80 | a configuration never recovers from a formula that asks for an unknown name |
| RunModel.WaitsInitially | CalculatedVariables/src/CalculatedVariablesEngine.cpp:244-252 | only variables with an initial value can still publish it |
| RunModel.ValuesExplained | CalculatedVariables/src/CalculatedVariable.cpp:64-112 | in every world: sources show what was last stored, variables not yet evaluated their initial value, and every other variable what its formulas make of the values that the variables they name show |
| RunModel.PlacesMean | CalculatedVariables/src/CalculatedVariablesEngine.cpp:59-88 | a formula's inputs are the first variables of its names and no others, each once, in the order in which it mentions them |
| RunModel.RunDefines | CalculatedVariables/src/CalculatedVariablesEngine.cpp:217-258 | a run has defined exactly what it was told to, in order |
| RunModel.StoredIsLast | AddressSpace/src/ChangeNotifyingVariable.cpp:52-64 | a source holds what was last written to it after its definition, or its first value if nothing was |
| RunModel.WaitingMeans | CalculatedVariables/src/CalculatedVariablesEngine.cpp:244-252 | a calculated variable has its initial value exactly until a write reaches it, over any number of formulas |
| RunModel.ChangesLast | AddressSpace/src/ChangeNotifyingVariable.cpp:52-64 | of the changes while the server runs the last to each source counts |
| Quiescence.StatePassedOn | CalculatedVariables/src/CalculatedVariablesChangeListener.cpp:38-73 | what arrives downstream: the first state that is not good, or the formula's value as good, whatever the status formula said |
| Quiescence.FirstIsNotGood | CalculatedVariables/src/CalculatedVariable.cpp:72-89 | the search for a state that is not good finds none exactly when all inputs are good |
| Quiescence.NoCycles | CalculatedVariables/src/CalculatedVariablesEngine.cpp:51-88 | in every network that registration builds no variable depends on itself, over any number of formulas |
| CalculatedEngine.Engine.constructor | CalculatedVariables/src/CalculatedVariablesEngine.cpp:363-367 | an engine without variables is valid |
| CalculatedEngine.Engine.RegisterVariable | CalculatedVariables/src/CalculatedVariablesEngine.cpp:51-57 | a parser variable appended and listening; everything stays connected and current |
| CalculatedEngine.Engine.Find | CalculatedVariables/src/CalculatedVariablesEngine.cpp:67-71 | the first parser variable of that name |
| CalculatedEngine.Engine.Request | CalculatedVariables/src/CalculatedVariablesEngine.cpp:59-88 | a formula gets the first variable of a name as an input, once, and is notified by it; an unknown name fails |
| CalculatedEngine.Engine.RequestAll | CalculatedVariables/src/CalculatedVariable.cpp:115-138 | compiling a formula connects all its names or fails on an unknown one |
| CalculatedEngine.Engine.Instantiate | CalculatedVariables/src/CalculatedVariablesEngine.cpp:217-258 | succeeds exactly when all names are registered; then the variable has those inputs, is registered after all others, which stay in the network and updated, and has its initial value or its formula's value, which its own parser variable has received |
| CalculatedEngine.Engine.Publish | CalculatedVariables/src/CalculatedVariablesEngine.cpp:244-254 | the initial value, or the first update; all earlier formulas stay updated, and all parser variables that had a value keep one |
| CalculatedEngine.Engine.Finish | CalculatedVariables/src/CalculatedVariablesEngine.cpp:240-256 | the rest of an instantiation, from the registration of the new variable on |
| CalculatedEngine.Engine.UpdateSource | AddressSpace/src/ChangeNotifyingVariable.cpp:52-64 | after a source update exactly the formulas below the source have been updated, every updated formula publishes its value, no other source has changed, and once domains are in step the mutexes taken are those of the source's own listeners, at most one |
| CalculatedEngine.OneMutex | CalculatedVariables/src/ParserVariable.cpp:48-71 | of the listeners of a source at most one has a mutex |
| CalculatedVariables.BelowHas | CalculatedVariables/src/ParserVariable.cpp:60-64 | a change updates the formulas that read the variable, and what reads those in turn, and nothing else |
| CalculatedEngine.Engine.Optimize | CalculatedVariables/src/CalculatedVariablesEngine.cpp:277-303 | erases exactly the unused parser variables, in order, and keeps everything connected and current |
| CalculatedEngine.KeptExactly | CalculatedVariables/src/CalculatedVariablesEngine.cpp:281-300 | what remains is exactly what is used or shares its variable with another listener |
| CalculatedEngine.InputsKept | CalculatedVariables/src/CalculatedVariablesEngine.cpp:281-300 | an input of a formula is never erased |
| Domains.Mark | CalculatedVariables/src/CalculatedVariablesEngine.cpp:305-331 | the depth-first search gives the mutex to everything that is connected through unmarked variables and leaves no unmarked neighbour behind; it ends although the graph has cycles |
| Domains.MarkInputs | CalculatedVariables/src/CalculatedVariablesEngine.cpp:311-323 | the search towards inputs |
| Domains.MarkOutputs | CalculatedVariables/src/CalculatedVariablesEngine.cpp:325-330 | the search towards surviving outputs |
| Domains.NewDomain | CalculatedVariables/src/CalculatedVariablesEngine.cpp:354-358 | a new mutex keeps the variables divided |
| Domains.DividedShares | CalculatedVariables/src/CalculatedVariablesEngine.cpp:333-361 | two variables that can change share a mutex exactly when they are connected and their component notifies something |
| Domains.DividedCount | CalculatedVariables/src/CalculatedVariablesEngine.cpp:333-361 | there are as many mutexes as components that notify something |
| Domains.SharedInStep | CalculatedVariables/src/ParserVariable.cpp:48-71 | a propagation then stays under one mutex |
| CalculatedEngine.Engine.SetupSynchronization | CalculatedVariables/src/CalculatedVariablesEngine.cpp:333-361 | after it, sharing a mutex is exactly being connected in a component that notifies something; the count is the number of those components; constants have none |
| CalculatedEngine.Engine.StartUp | Server/src/BaseQuasarServer.cpp:448-449 | pruning and then mutex set-up, from any state of registration: both results together; no variable, source or formula leaves the network, only unused parser variables |
| Graphs.ConnectedTurns | CalculatedVariables/src/CalculatedVariablesEngine.cpp:305-331 | connection is symmetric |
| Graphs.ConnectedJoins | CalculatedVariables/src/CalculatedVariablesEngine.cpp:305-331 | connection is transitive |
| Graphs.ClosedContains | CalculatedVariables/src/CalculatedVariablesEngine.cpp:305-331 | what is connected to a member of a closed set is a member too |
| Graphs.ComponentCount | CalculatedVariables/src/CalculatedVariablesEngine.cpp:333-361 | as many components as pairwise unconnected roots |
| ThreadPoolRuns.NoLostWakeup | Common/src/QuasarThreadPool.cpp:57-101 | in every reachable state with a worker, no quit, a job queued and no notification outstanding, some worker is neither blocked nor gone |
| ThreadPoolRuns.JobsInOrder | Common/src/QuasarThreadPool.cpp:57-101 | in every reachable state the queue is within its limit, holds the accepted jobs in order, and no job is executed or deleted twice; that jobs are executed at all, `ExecutedBeforeDeleted` and `ThreadPoolWork.JobsGetDone` say |
| ThreadPoolRuns.ExecutedBeforeDeleted | Common/src/QuasarThreadPool.cpp:69-78 | in every reachable state before the queue is flushed, a job that has been deleted has been executed, exactly once |
| ThreadPoolRuns.OnlyFlushedUnexecuted | Common/src/QuasarThreadPool.cpp:39-55 | from the last join on: the jobs deleted without being executed are exactly those that were still queued then and have been flushed; all others accepted have been executed and deleted once |
| ThreadPoolWork.JobsGetDone | Common/src/QuasarThreadPool.cpp:57-101 | from every reachable state that is not quitting, in every order of the steps of workers and of calls under way: the run ends, and then the queue is empty, every accepted job has been executed and deleted once, and every worker waits |
| ThreadPoolWork.StillIsDone | Common/src/QuasarThreadPool.cpp:57-101 | where no such step is left, all workers wait and nothing is queued |
| ThreadPoolWork.BusyRunsEnd | Common/src/QuasarThreadPool.cpp:57-101 | only so many such steps can be taken, in any order |
| ThreadPoolRuns.AcceptsWhileRoom | Common/src/QuasarThreadPool.cpp:86-101 | a job is turned down exactly when the queue is full, and otherwise is its last |
| ThreadPoolRuns.TakesNext | Common/src/QuasarThreadPool.cpp:62-67 | the job a worker takes is the next in the order of acceptance, untouched, and with no other worker |
| ThreadPoolRuns.AllDeleted | Common/src/QuasarThreadPool.cpp:39-55 | when the destructor has returned every accepted job has been deleted exactly once; which of them were executed, `OnlyFlushedUnexecuted` says |
| ThreadPoolRuns.AtMostOneMore | Common/src/QuasarThreadPool.cpp:59-67 | after quit is set each worker starts at most one more job |
| ThreadPoolRuns.QuitCanBeMissed | Common/src/QuasarThreadPool.cpp:42-45 | a reachable state in which a worker has missed the quit and the destructor waits for it for ever |
| ThreadPoolStops.DestructorReturns | Common/src/QuasarThreadPool.cpp:39-84 | from the state just after `notify_all`, without calls or spurious wake-ups: in every order of steps the run ends; the destructor has then returned exactly when no more workers had tested the quit flag and not yet looked at the queue than there were jobs queued, and otherwise some worker is blocked for ever |
| ThreadPoolStops.KeepsExcess | Common/src/QuasarThreadPool.cpp:39-84 | every step of a worker or of the joining destructor keeps the number of such and of blocked workers less the number of queued jobs |
| ThreadPoolStops.QuietRunsEnd | Common/src/QuasarThreadPool.cpp:39-84 | only so many steps can be taken, in any order |
| ThreadPoolStops.FinishedStates | Common/src/QuasarThreadPool.cpp:39-84 | where no step is left the destructor has returned, or waits for a blocked worker |
| ThreadPoolStops.QuittingAnnounces | Common/src/QuasarThreadPool.cpp:42-43 | where that state comes from |
| ThreadPoolRuns.RunKeeps | Common/src/QuasarThreadPool.cpp:30-101 | every run keeps the invariant of mutex, queue, wake-ups, jobs and shutdown |
| ThreadPools.KeepsAwake | Common/src/QuasarThreadPool.cpp:57-101 | every step keeps: while all workers are blocked each queued job has a notification coming |
| ThreadPools.KeepsAccounted | Common/src/QuasarThreadPool.cpp:57-84 | every step keeps: a job is queued and untouched, with exactly one worker, or deleted once |
| ThreadPools.KeepsDone | Common/src/QuasarThreadPool.cpp:69-78 | every step keeps: before the flush a job is deleted only after it has been executed |
| ThreadPools.KeepsHeld | Common/src/QuasarThreadPool.cpp:62-79 | every step keeps: no two workers have the same job |
| ThreadPools.KeepsExclusive | Common/src/QuasarThreadPool.cpp:61-91 | every step keeps: the mutex is held by who is inside a critical section |
| ThreadPools.KeepsStartsOnce | Common/src/QuasarThreadPool.cpp:59-67 | every step keeps: a worker that started a job after quit does not come back for another |
| ThreadPools.KeepsStopping | Common/src/QuasarThreadPool.cpp:39-55 | every step keeps: workers leave only after quit, and the queue is flushed after all have left |
| ContentOrders.Parent.ValidateContentOrder | Configuration/Configurator.h:42-69 | accepts exactly when the entries of the type are a permutation of the positions of its children; otherwise the first bad index or the number of unregistered children |
| ContentOrders.Parent.PushBack | Configuration/include/ConfigurationDecorationUtils.h:48-54 | appends child and entry; acceptance of that type and of every other type is as before |
| ContentOrders.CrossOffDecides | Configuration/Configurator.h:45-68 | crossing indices off a set succeeds exactly when they are the set's members, each once |
| ContentOrders.PermutationGrows | Configuration/include/ConfigurationDecorationUtils.h:51-52 | appending the next position turns a permutation into one that is longer by one, and only a permutation |

## Left out

- Trees in patches, merges and comparisons are values; updating nodes in place, sharing through reference nodes and
  names marked as constant are modelled only for the child lists and for documents as a whole.
- `cJSON_Duplicate` is the identity on such values; `cJSON_Delete` and the freeing of nodes are not modelled.
- Floating point: numbers are exact reals, and printing is restricted to 32-bit integers.
- JsonTextPrinting.PrintIsJson: strings are bytes, and those from 128 on stand for themselves; whether a text is
  well-formed UTF-8 is not asked.
- JsonTextAccepting.ParsesAccepted: says which whole texts are taken. Where the error position of any other text lies is
  what the functions of `Parsing` define, inside the text (`Parsing.DocumentInside`), and is not described further.
- JsonTextMinifying.MinifyCompacts: a comment that starts with `/*/` and a line comment that the end of the text cuts
  off are not among the comments of `JsonText`.
- Allocation failure, and `int` overflow of counters, array indices in pointers and buffer sizes above 2^30.
- Bit operations of the UTF-8 and UTF-16 transcoding are written as arithmetic.
- PatchRoundTrip.PatchRoundTrip: says when the run compares equal; the order in which the members of the result end up
  is not stated.
- MergeRoundTrip.MergeRoundTrip: trees with two names in one object that differ in case only are excluded, as they are
  for sorting and comparing.
- PatchRuns.Document.Apply: the sorting that a "test" operation does to the value inside the patch is not tracked. What
  it does to the document's own lists is: from the point where `links` is `Broken` on, the original's lists are looped
  and `root` no longer describes them. `links` is kept for the document as a whole, so a run can count as broken although
  the first member it detaches is not one that the "test" moved.
- PatchLinks.NoTestIntact: is about that flag. `ListLinks.Perform` ties the flag to the linked nodes of one child list;
  that the flag of a document covers the flags of all its lists is by its definition and is not derived from a model of
  all lists together.
- Minifying.MinifyInPlace: texts that end inside a literal or a `/*` comment are excluded, since the code then reads and
  writes past the terminator; `Minifying.MinifyOverruns` states that these are all such texts.
- PatchRuns.InplaceDecode: names that end in an odd number of `~` make the original step over the terminator and are
  excluded; `Pointers.DecodeOverruns` states that these are all such names.
- Null names and strings, which both comparison loops test for first, do not occur in the model's objects.
- muParser, the elaboration of formulas with regular expressions, and the generic formulas: a formula is the list of
  names it asks for and any function of their values.
- The stack's own `setValue` is taken to accept every value, and a Boolean to convert to 0 or 1.
- CalculatedEngine.Engine.Instantiate: when a name is unknown the original throws and the server does not start; the
  state it leaves behind is not described.
- CalculatedEngine.Engine.SetupSynchronization: called once, before any mutex exists, as
  `Server/src/BaseQuasarServer.cpp:448-449` does.
- Domains.SharedInStep: propagations are run one at a time; that two propagations exclude each other follows from
  their taking the same mutex and is not modelled as an interleaving.
- Quiescence.PublishesDenoted: a calculated variable with an initial value matches its formula only after its first
  update; a variable whose output was erased no longer links its inputs. `EngineRuns` says when the first update is.
- EngineRuns.Serve: every variable is registered once, when it is defined; the engine's
  own operations also allow several parser variables of one variable.
- ThreadPoolRuns.AllDeleted: no call of `addJob` overlaps the end of the destructor; a caller must not use a pool that is
  being destroyed.
- ThreadPoolStops.DestructorReturns: with calls of `addJob` still under way, or with spurious wake-ups, the destructor
  may return where the condition says that it does not; the condition is for runs without them.
- Logging, timestamps, the OPC UA stack, device access, process start-up and the code generators.
