# A verified model of the remote control plugin

The plugin connects JSON-RPC clients with the control manager over a message bus. Most of it passes data on. This
project models the parts that do more than that, and proves what they are for.

| file | what it models |
|---|---|
| `DisplayFormat.dfy` | `formatForDisplay`: in-place indentation of a JSON text |
| `TableLayout.dfy`, `Blocks.dfy`, `ColumnPrinter.dfy`, `Columns.dfy` | `formatColumns`: `{...}` blocks shown side by side |
| `Screen.dfy` | where a line of the text is seen on the screen, and when a line is too long |
| `JsonQuotes.dfy` | `removeJsonQuotes`: outer quotes and escapes removed in place |
| `Base64.dfy` | `imageEncoder`: a streaming base64 encoder (RFC 4648) |
| `Split.dfy`, `Whitespace.dfy`, `CaseSearch.dfy` | `split`, `removeExtraWhitespaces`, and the case-insensitive searches |
| `Observers.dfy` | observer registry and event fan-out, as a transition system over any number of threads |
| `Iarm.dfy`, `Implementation.dfy` | bus connection with retries, event handlers, registry operations, destructor |
| `Plugin.dfy` | the plugin shell: acquiring, rolling back, tearing down, and whole runs of both levels |
| `Payload.dfy` | event payloads and query results becoming typed status data |
| `Text.dfy` | the operations of a mutable string, and `size_t` arithmetic |

`dafny verify dfyconfig.toml` checks everything.

Code that works in place is modelled as methods over a `StringBuffer`, arrays and objects. Each method is proved against
a recursive specification function or states its new state outright; the lemmas say what the specification is good for.
Results of calls into other components (the bus, the host, the JSON library, the terminal) are parameters, so every
statement holds for all of their outcomes.

Some results, in words:

- Formatting for display never loses anything: the original of every string can be read back, whatever line breaks,
  spaces and unbalanced braces it holds.
- The column layout is an exact transposition. Line `i` of column `j` is line `j * (t / n) + min(j, t % n) + i` of its
  block and is seen on row `i` at screen column `52 * j`; no line is lost or printed twice, and everything outside
  the blocks is copied. A padded line of more than 52 characters makes the unsigned padding wrap around, and then the
  function throws and leaves its argument as it was; it throws in no other case. A remote whose first entry has more
  than 47 characters is such a case, once it is formatted for display.
- The base64 encoder is a bijection onto the texts that a strict decoder accepts, with and without padding.
- In every interleaving each reference to an observer is accounted for, so a callback never reaches a destroyed
  observer, even one that was unregistered while the fan-out was under way; a completed fan-out has called exactly the
  observers registered at its snapshot, once each, in the order in which they joined. No fan-out is ever stuck.
- After any sequence of starts, stops, client registrations, events and lost connections, with any failures, the plugin
  is fully idle or fully active, and whenever it is idle every counter and registration is what it was at the start.
  The connection flag of the bus, the observers, the callbacks and the terminated connections are described exactly for
  every such sequence; the flag is not always what it was (see below).

## Where the code and its comments differ

- `equal` is described as telling whether two strings are equal. Two empty strings are not equal for it, because
  `std::search` ends at `end()`; likewise the empty string does not contain itself. `EqualMeans` and `ContainsMeans`
  state exactly what holds.
- `removeJsonQuotes` undoes the escaping of quotes for every string. Against an encoder that also escapes backslashes
  it is an inverse exactly on the strings without a backslash (`RemoveUndoesJson`).
- The bus connection is closed by an implementation that did not make it, if the first query about it is not answered;
  and one that it made is left behind if the attempts are given up although one succeeded. `StartAndStop` shows that
  `Kept` is the exact condition under which neither happens, whether the start succeeds or fails;
  `CloseConnectionOfOthers` and `LeaveConnectionBehind` are the two cases.

## Model

| member | source | states |
|---|---|---|
| DisplayFormat.FormatForDisplay | plugin/test/remoteControlTestClient.cpp:82-119 | the loop that inserts into the string it scans terminates on every string and leaves its one-pass formatted form |
| DisplayFormat.Turn | plugin/test/remoteControlTestClient.cpp:87-118 | one turn keeps the loop invariant, and either consumes a character of the original or steps over an inserted blank without growing the string |
| DisplayFormat.Visit | plugin/test/remoteControlTestClient.cpp:89-117 | the character under the cursor is replaced by its emitted form, and the cursor is put back on it |
| DisplayFormat.FormatConcat | plugin/test/remoteControlTestClient.cpp:82-119 | formatting is compositional: a suffix is formatted at the level its prefix leaves |
| DisplayFormat.LevelIsBalanceAboveLowest | plugin/test/remoteControlTestClient.cpp:97-111 | the zero-saturated nesting level is the brace balance measured from its lowest point so far |
| DisplayFormat.FormattedOpening | plugin/test/remoteControlTestClient.cpp:89-116 | behind every ',' and '{' come a line break and four spaces for each level, the level told by brace balances |
| DisplayFormat.FormattedClosing | plugin/test/remoteControlTestClient.cpp:97-108 | before every '}' come a line break and four spaces for each level that is left |
| DisplayFormat.FormattedOther | plugin/test/remoteControlTestClient.cpp:87-118 | every other character is shown as it is |
| DisplayFormat.NoBareBrace | plugin/test/remoteControlTestClient.cpp:101-107 | in formatted text a closing brace is never reached through spaces alone |
| DisplayFormat.UnformatFormat | plugin/test/remoteControlTestClient.cpp:82-119 | a reader that tracks the same level recovers the original of every string |
| DisplayFormat.FormatInjective | plugin/test/remoteControlTestClient.cpp:82-119 | different strings are displayed differently |
| DisplayFormat.FormatKeepsInk | plugin/test/remoteControlTestClient.cpp:91-116 | only blanks are inserted: the other characters stay, in order |
| DisplayFormat.BreakAfterEveryOpening | plugin/test/remoteControlTestClient.cpp:109-117 | every opening brace in the result is directly followed by a line break |
| TableLayout.FilledCells | plugin/test/remoteControlTestClient.cpp:191-199 | row i of column j is filled exactly when fewer cells come before it in printing order than there are lines |
| TableLayout.ColumnsPartition | plugin/test/remoteControlTestClient.cpp:191-199 | the columns take all lines, each starting where the previous one ends |
| TableLayout.SlotInRange | plugin/test/remoteControlTestClient.cpp:229-260 | each printed cell shows a line of the block |
| TableLayout.SlotInjective | plugin/test/remoteControlTestClient.cpp:229-260 | no line is printed twice |
| TableLayout.SlotOnto | plugin/test/remoteControlTestClient.cpp:229-260 | every line is printed |
| TableLayout.CellPosition | plugin/test/remoteControlTestClient.cpp:249-257 | when the padded lines fit, every cell begins on its row and at 52 times its column |
| TableLayout.LineOnScreen | plugin/test/remoteControlTestClient.cpp:183-264 | line j*(t/n)+min(j,t%n)+i of the block is found in the result on screen row i at screen column 52*j |
| TableLayout.TableHeight | plugin/test/remoteControlTestClient.cpp:194-264 | the result has ceil(t/n) rows and ends with a line break |
| TableLayout.TableKeepsInk | plugin/test/remoteControlTestClient.cpp:229-264 | every visible character is shown as often as the block holds it |
| Blocks.CountedBreak | plugin/test/remoteControlTestClient.cpp:183-190 | a counted line break comes before the next closing brace, and one fewer is counted behind it |
| Blocks.LinesText | plugin/test/remoteControlTestClient.cpp:200-219 | the lines of a block, each closed again by a line break, are exactly the text the cursor passes |
| Blocks.BlockIsComplete | plugin/test/remoteControlTestClient.cpp:183-225 | behind a block no line break comes before the next closing brace, and its lines hold neither |
| ColumnPrinter.CountBlockLines | plugin/test/remoteControlTestClient.cpp:183-190 | counts the line breaks before the next closing brace or the end |
| ColumnPrinter.AllocateLines | plugin/test/remoteControlTestClient.cpp:191-199 | the budgets are those of the allocation, and the number of rows is the first of them |
| ColumnPrinter.LoadColumn | plugin/test/remoteControlTestClient.cpp:205-219 | the column receives exactly the text of its lines and the cursor ends behind them |
| ColumnPrinter.LoadColumns | plugin/test/remoteControlTestClient.cpp:200-220 | all columns are loaded from one shared cursor, which ends behind the block |
| ColumnPrinter.CopyOpeningLine | plugin/test/remoteControlTestClient.cpp:173-182 | the search for the line break ends in range, and what it passes is copied |
| ColumnPrinter.PadWraps | plugin/test/remoteControlTestClient.cpp:252-256 | the unsigned padding is an impossible length exactly when the line is longer than the column |
| ColumnPrinter.TakeLine | plugin/test/remoteControlTestClient.cpp:235-258 | one line moves from its column to the row, with its line break or padded; throws exactly when a padded line is too long |
| ColumnPrinter.PrintRow | plugin/test/remoteControlTestClient.cpp:231-260 | one row continues the printed text, keeping the columns, the count and the position in step |
| ColumnPrinter.PrintRows | plugin/test/remoteControlTestClient.cpp:227-264 | all cells are printed in order; throws exactly when some padded line is too long |
| ColumnPrinter.TransposeBlock | plugin/test/remoteControlTestClient.cpp:163-265 | a block becomes its table, and the cursor is left one before its end |
| Columns.Transcribe | plugin/test/remoteControlTestClient.cpp:157-267 | the output is the text with every block replaced by its table |
| Columns.FormatColumns | plugin/test/remoteControlTestClient.cpp:124-272 | for every terminal width: below 104, or without the text "remoteData", nothing changes; otherwise the text becomes the display of its blocks behind the first "remoteData", or a padding throws and nothing changes |
| Columns.AppliesMeans | plugin/test/remoteControlTestClient.cpp:143-155 | there is something to lay out exactly when two columns fit and some slice of the text is "remoteData"; the first such slice is found |
| Columns.ColumnCountIs | plugin/test/remoteControlTestClient.cpp:127-139 | 2, 3 and 4 columns from widths of 104, 156 and 208 on |
| Columns.PiecesAreLossless | plugin/test/remoteControlTestClient.cpp:157-225 | copied parts and blocks, put together again, are the input, so the parts outside blocks keep their text and order |
| Columns.DisplayedKeepsInk | plugin/test/remoteControlTestClient.cpp:124-272 | every visible character of the input is shown as often as it was there |
| Columns.FormattedIsReady | plugin/test/remoteControlTestClient.cpp:122-182 | whatever the display formatter returns meets what the column formatter expects |
| Columns.ShowNetStatus | plugin/test/remoteControlTestClient.cpp:594-595 | one formatter after the other works on every input, throws exactly when some padded line is too long, shows the layout otherwise, and keeps all visible characters |
| Screen.BlockOrigin | plugin/test/remoteControlTestClient.cpp:165-190 | each block that is laid out is that of an opening brace behind "remoteData", and what is transcribed before it is the text before it |
| Screen.LineShown | plugin/test/remoteControlTestClient.cpp:157-267 | in the text that is left, line j*(t/n)+min(j,t%n)+r of each block is found r rows below the row on which the block begins, at screen column 52*j |
| Screen.TwoEntriesFit | plugin/test/remoteControlTestClient.cpp:249-256 | a remote with two entries, formatted for display, is laid out exactly when the first has at most 47 characters, and throws otherwise |
| Screen.SixtyCharactersThrow | plugin/test/remoteControlTestClient.cpp:249-256 | a concrete text for which the two formatters throw |
| JsonQuotes.RemoveJsonQuotes | plugin/test/remoteControlTestClient.cpp:279-294 | the erasing loop unescapes a quoted string from left to right; a string not quoted at both ends is left as it is |
| JsonQuotes.UnescapeIsLocal | plugin/test/remoteControlTestClient.cpp:286-292 | although characters move under the loop, it takes away exactly the backslashes that stand before a quote at the outset |
| JsonQuotes.UnescapeEscapeQuotes | plugin/test/remoteControlTestClient.cpp:286-292 | unescaping undoes the escaping of quotes, backslashes in the original notwithstanding |
| JsonQuotes.RemoveUndoesQuote | plugin/test/remoteControlTestClient.cpp:274-294 | any string, quoted with its inner quotes escaped, is recovered |
| JsonQuotes.RemoveUndoesJson | plugin/test/remoteControlTestClient.cpp:274-294 | against an encoder that also escapes backslashes it is an inverse exactly on strings without one |
| JsonQuotes.BackslashIsDoubled | plugin/test/remoteControlTestClient.cpp:286-292 | the shortest string that such an encoder's output does not give back |
| Base64.ImageEncoder | helpers/UtilsString.h:162-196 | appends the encoding of section 4 of RFC 4648 for every byte array and both padding flags |
| Base64.EncodeByte | helpers/UtilsString.h:168-183 | emitted groups and pending bits together are the bits read so far, and `lastStuff` holds the pending ones left-aligned |
| Base64.Finish | helpers/UtilsString.h:184-194 | the pending bits and the padding complete the encoding |
| Base64.ValueOfTable | helpers/UtilsString.h:157-159 | the table is the alphabet of section 4 of RFC 4648 |
| Base64.EncodeConcat | helpers/UtilsString.h:162-196 | whole groups of three bytes are encoded on their own |
| Base64.BlockOfThree | helpers/UtilsString.h:162-196 | three bytes are 24 bits read as four groups of six |
| Base64.EncodedLength | helpers/UtilsString.h:184-194 | padded length 4*ceil(n/3), unpadded length ceil(4n/3) |
| Base64.PadOnlyAtEnd | helpers/UtilsString.h:187-193 | a text of symbols and then the padding that the length asks for: '=' at most twice, never elsewhere, never without padding |
| Base64.DecodeEncode | helpers/UtilsString.h:162-196 | a strict decoder gives every byte array back |
| Base64.EncodeDecode | helpers/UtilsString.h:162-196 | what the strict decoder accepts is the encoding of what it returns |
| Base64.Bijection | helpers/UtilsString.h:162-196 | encoding and strict decoding are inverse bijections |
| Split.SplitInto | helpers/UtilsString.h:143-155 | appends the pieces between the delimiters, the wrap-around of the initial -1 included |
| Split.CutOff | helpers/UtilsString.h:147-154 | one round cuts one piece off, in range, and moves the cursor on |
| Split.SplitInterleaved | helpers/UtilsString.h:143-155 | delimiter-free pieces with delimiters between them are split into just these pieces |
| Split.PiecesRebuild | helpers/UtilsString.h:143-155 | no piece holds a delimiter, there is one more than delimiters, and together they rebuild the string |
| Split.SplitIsUnique | helpers/UtilsString.h:143-155 | a split is the only way to cut a string up at its delimiters |
| Split.SplitJoin | helpers/UtilsString.h:143-155 | for one delimiter, splitting undoes joining |
| Whitespace.RemoveExtraWhitespaces | helpers/UtilsString.h:204-225 | appends the input up to a NUL with every run of spaces collapsed; false only for an empty input |
| Whitespace.SkipRun | helpers/UtilsString.h:213-219 | the inner loop stops on the last space of a run and reads nothing behind the terminator |
| Whitespace.ReadsUpToNul | helpers/UtilsString.h:208-222 | the input counts up to its first NUL character |
| Whitespace.CollapsedIsSingle | helpers/UtilsString.h:210-221 | the result never holds two spaces in a row |
| Whitespace.FixedPoints | helpers/UtilsString.h:204-225 | a string is changed exactly when it holds two spaces in a row, and a second time changes nothing |
| Whitespace.WordsAreKept | helpers/UtilsString.h:204-225 | the words stay the same, in the same order |
| CaseSearch.FindSubstrCiIsLeast | helpers/UtilsString.h:43-52 | the least position of an occurrence, or -1 if there is none |
| CaseSearch.MatchIsSlice | helpers/UtilsString.h:46-48 | an occurrence is a slice with the same letters |
| CaseSearch.EqualMeans | helpers/UtilsString.h:73-94 | `equal` holds exactly for strings with the same letters that are not empty |
| CaseSearch.EqualIsEquivalence | helpers/UtilsString.h:73-94 | `equal` is symmetric and transitive, and reflexive exactly on strings that are not empty |
| CaseSearch.EmptyIsNotEqualToItself | helpers/UtilsString.h:73-82 | the input on which `equal` fails its description |
| CaseSearch.ContainsMeans | helpers/UtilsString.h:54-71 | `contains` and `stringContains` are containment in a string that is not empty, each under its own folding of characters |
| CaseSearch.ContainsAgree | helpers/UtilsString.h:54-140 | the two agree on all strings exactly when the two foldings identify the same characters |
| Observers.StepKeepsInv | plugin/RemoteControlImplementation.cpp:291-453 | every step of every thread keeps the reference ledger, and vector and snapshots free of duplicates |
| Observers.FreshWorldHasInv | plugin/RemoteControlImplementation.cpp:230-239 | a new implementation, among any observers that others hold, satisfies the invariant that runs start from |
| Observers.LedgerAlwaysHolds | plugin/RemoteControlImplementation.cpp:291-542 | in every run, a counter is the references held outside, one for a registration, and one for each unreleased snapshot entry; callbacks may take references and register again what only a snapshot keeps alive |
| Observers.CallbackHitsLiving | plugin/RemoteControlImplementation.cpp:473-479 | every callback reaches an observer that is alive, kept so by the fan-out itself |
| Observers.EveryObserverCalledOnce | plugin/RemoteControlImplementation.cpp:433-479 | a completed fan-out has called the observers of its snapshot, once each, in order, and no others, and its thread is free for the next event |
| Observers.FanoutCanFinish | plugin/RemoteControlImplementation.cpp:433-479 | no fan-out is ever stuck: from any state its own steps call exactly those still to be called, in order, and end it, with registry and outside references untouched |
| Observers.EventRunsAlone | plugin/RemoteControlImplementation.cpp:473-479 | an undisturbed event calls every registered observer once, in order, and leaves the whole state as it was |
| Observers.RegistryIsNeverBlocked | plugin/RemoteControlImplementation.cpp:291-323 | registering, leaving, and taking or giving up references is possible whatever fan-outs are under way |
| Observers.SnapshotIsNeutral | plugin/RemoteControlImplementation.cpp:433-453 | taking and releasing a snapshot leaves every counter as it was |
| Observers.DestructionReturnsReferences | plugin/RemoteControlImplementation.cpp:249-257 | destruction with no fan-out under way returns every reference the implementation held |
| Observers.RegistryIsOrderedSet | plugin/RemoteControlImplementation.cpp:291-323 | the vector holds exactly those who joined and did not leave, in the order in which they joined |
| Iarm.InitIarm | helpers/UtilsIarm.h:43-76 | succeeds exactly when it is told of a connection, in the first of at most 21 attempts that is; what is left behind otherwise |
| Iarm.WhatSucceeds | helpers/UtilsIarm.h:43-86 | literal answers of the bus: the 21st attempt may succeed, a bus in an invalid state is asked all the same, refused or unanswered attempts never succeed |
| Implementation.RemoteControlImplementation.Register | plugin/RemoteControlImplementation.cpp:291-305 | null is refused; an observer is added and counted once |
| Implementation.RemoteControlImplementation.Unregister | plugin/RemoteControlImplementation.cpp:307-323 | null is refused; a registered observer is removed and released, another is ignored |
| Implementation.RemoteControlImplementation.ObserverSnapshot | plugin/RemoteControlImplementation.cpp:433-445 | the snapshot is the vector, and each of its observers gains a reference |
| Implementation.RemoteControlImplementation.ReleaseObserverSnapshot | plugin/RemoteControlImplementation.cpp:447-453 | each observer loses the reference, and the snapshot is empty |
| Implementation.RemoteControlImplementation.Notify | plugin/RemoteControlImplementation.cpp:473-479 | without interleaving, each registered observer is called once, in order, and all counters end as they were |
| Implementation.RemoteControlImplementation.InstallOrRollBack | plugin/RemoteControlImplementation.cpp:333-340 | the installed handlers stay the first of the five, or all of them are removed |
| Implementation.RemoteControlImplementation.InstallAll | plugin/RemoteControlImplementation.cpp:341-345 | a failure at handler k removes exactly the k installed ones, in reverse, and disconnects only an own connection |
| Implementation.RemoteControlImplementation.InitializeIARM | plugin/RemoteControlImplementation.cpp:327-352 | when it succeeds, that each of the five handlers is installed once, in order, and whose the connection is; what a failure undoes, and exactly when it keeps the connection flag |
| Implementation.RemovalsOfAll | plugin/RemoteControlImplementation.cpp:356-370 | the five removals, the last installed first |
| Implementation.RemoteControlImplementation.DeinitializeIARM | plugin/RemoteControlImplementation.cpp:354-379 | removes the installed handlers in reverse order, no others, and closes only an own connection |
| Implementation.RemoteControlImplementation.Configure | plugin/RemoteControlImplementation.cpp:265-287 | when it succeeds; a failure gives the service back and leaves no handler, and keeps the connection flag under the exact condition |
| Implementation.RemoteControlImplementation.Destroy | plugin/RemoteControlImplementation.cpp:241-263 | handlers, own connection, observers and service are all given back |
| Plugin.RemoteControl.constructor | plugin/RemoteControl.h:36-43 | a new plugin is idle |
| Plugin.RemoteControl.Create | plugin/RemoteControl.cpp:53-74 | what is held after the first steps, for each way they can go |
| Plugin.RemoteControl.RegisterNotification | plugin/RemoteControl.cpp:76-87 | the notification is registered once, or nothing changes |
| Plugin.RemoteControl.ReleaseImplementation | plugin/RemoteControl.cpp:99-114 | the last release destroys the implementation, which gives back all it held; a connection that is found is terminated once |
| Plugin.RemoteControl.RollBack | plugin/RemoteControl.cpp:94-120 | from any failed step, everything acquired is given back, and the connection of an implementation is terminated |
| Plugin.RemoteControl.Initialize | plugin/RemoteControl.cpp:42-123 | the message for each failure; success leaves the plugin fully active, failure fully idle with every counter restored and the connection terminated |
| Plugin.MessagesAre | plugin/RemoteControl.cpp:63-91 | the texts of the messages |
| Plugin.RemoteControl.Deinitialize | plugin/RemoteControl.cpp:125-163 | without a matching service nothing changes; otherwise everything is given back, a connection that is found is terminated once, and the plugin is idle |
| Plugin.RemoteControl.Deactivated | plugin/RemoteControl.cpp:165-180 | a deactivation is submitted exactly for the own connection of an active plugin, and no reference is kept |
| Plugin.DestroyBalances | plugin/RemoteControlImplementation.cpp:249-257 | when all counters are the initial ones plus registrations, destruction restores the initial ones |
| Plugin.DoStart | plugin/RemoteControl.cpp:42-123 | a start, whatever the bus answers, keeps the books, leads to the active state exactly when it succeeds, and otherwise changes what `AfterStart` says |
| Plugin.DoStop | plugin/RemoteControl.cpp:125-163 | a stop keeps the books and leads to the idle state, and closes only an own connection; in the idle state it changes nothing |
| Plugin.Run | plugin/RemoteControl.cpp:42-180 | after any operations with any failures the plugin is idle or active, and when idle all counters and registrations are the initial ones; connection flag, observers, callbacks, terminations and deactivations take exactly the stated course |
| Plugin.FlagIsKept | plugin/RemoteControlImplementation.cpp:327-379 | along any operations whose starts keep the flag, it stays what it was, apart from a connection the plugin still owns |
| Plugin.StartAndStop | plugin/RemoteControl.cpp:42-163 | a start and a stop give everything back, and the connection flag is what it was if and only if the start keeps it; always if the bus answers every query |
| Plugin.CloseConnectionOfOthers | plugin/RemoteControlImplementation.cpp:329-331 | the first query is not answered: the connection of others is closed |
| Plugin.LeaveConnectionBehind | helpers/UtilsIarm.h:52-72 | all 21 attempts connect and none is confirmed: the connection is left behind |
| Payload.ParseUint32Array | plugin/RemoteControlImplementation.cpp:151-176 | at most the limit of elements, each the nearest 32-bit value; exceeding it is reported |
| Payload.ParseRemoteDataArray | plugin/RemoteControlImplementation.cpp:204-221 | at most the limit of elements, each read as a remote; exceeding it is reported |
| Payload.EventStatus | plugin/RemoteControlImplementation.cpp:455-471 | the event path builds the status data of its status object, its network type falling back to the outer one |
| Payload.GetNetStatus | plugin/RemoteControlImplementation.cpp:663-697 | the query path builds the status data of its status object, or that of an empty one when the call fails |
| Payload.StatusRoundTrip | plugin/RemoteControlImplementation.cpp:178-697 | for every status within the limits, written out label by label, the event path and the query path give back that very status; without its network type, with the assumed one |
| Payload.RemoteRoundTrip | plugin/RemoteControlImplementation.cpp:178-202 | each of the 18 labels of a remote reaches its own field |
| Payload.AbsentLabels | plugin/RemoteControlImplementation.cpp:181-200 | a missing label leaves its field at its default, "0" for the two IR codes |
| Payload.WideNumbers | plugin/RemoteControlImplementation.cpp:184-196 | a number that does not fit its field is reduced modulo 2^32 |
| Payload.UnknownNames | plugin/RemoteControlImplementation.cpp:88-147 | an unknown name leaves an enumeration at its default |
| Payload.LimitsAreKept | plugin/RemoteControlImplementation.cpp:178-221 | the lists hold exactly the first 8, 32 and 32 elements at most, at either nesting level |
| Payload.EventAndQuery | plugin/RemoteControlImplementation.cpp:455-697 | the results of the event path and the query path, given the same status object, are equal exactly when it names the network type or both assume the same one |
| Payload.NearestValue | plugin/RemoteControlImplementation.cpp:162-169 | saturation gives the nearest 32-bit value, as every parsed element is; truncation keeps a value exactly when it fits and repeats every 2^32 |

## Left out

- Columns.FormatColumns: the terminal query is a parameter, and a terminal call that fails is not modelled.
- JsonQuotes.RemoveJsonQuotes: an empty string or a lone quote is excluded, because the source reads or erases a character that is not there.
- Whitespace.RemoveExtraWhitespaces: the input is a value, so passing one string as both arguments is not modelled.
- DisplayFormat.FormatForDisplay: the nesting level is unbounded; overflow of `int` is not modelled.
- CaseSearch.FindSubstrCiIsLeast: folding to upper case is any function of characters; locales are not modelled.
- Observers.EveryObserverCalledOnce: a callback that never returns, and callbacks that fail, are not modelled; what a callback does to the registry is, as steps of its own.
- Implementation.RemoteControlImplementation.Notify: one fan-out by itself; interleaved ones are steps in `Observers`.
- Implementation.RemoteControlImplementation.DeinitializeIARM: removing handlers and disconnecting is assumed to succeed; the source only logs a failure.
- Iarm.InitIarm: the pause between attempts is not modelled.
- Plugin.Run: whether the bus library stays initialised is not claimed, because a failed connection leaves it so. The observers of clients exist from the beginning and their clients hold them throughout.
- Plugin.RemoteControl.ReleaseImplementation: the plugin holds the only references to the implementation, so its last release runs the destructor.
- Payload.EventStatus: conversions of the JSON library are arbitrary; the validation and firmware events use the same parser and are not modelled.
- The instance pointer that bus callbacks use, and the race between a callback and the destructor: no callback is under way at destruction.
- `IARMBusCall` and the request methods: they copy parameters into JSON and a result back.
- `trim`, `toUpper`, `toLower` and the enumeration tables that no modelled path uses: each is a single call or a short table.
- `PluginInterfaceBuilder`, logging, JSON macros, the menus of the test client, and build scripts.
