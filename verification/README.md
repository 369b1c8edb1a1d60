# Verified models of rd_utils

Dafny models of six parts of the C++ library rd_utils, and proofs of what those parts promise. Nothing here
executes the library: each model does what the cited lines do, branch by branch, and the proofs are about the model.
`dafny verify dfyconfig.toml` checks everything.

**Lock-free queue** (`Tickets`, `MpmcQueue`, `MpmcSafety`, `MpmcTheorems`, `MpmcProgress`). Any number of threads push and pop; every
atomic load, compare-and-swap, value write and counter store is a step, and steps interleave freely. `MpmcQueue.Step` is
one step, `MpmcTheorems.Reached` a state after any schedule. The heart of the proof is a chain per slot,
`pops <= claimed pops <= pushes <= claimed pushes <= pops + 1`. A result of false only means full, or empty, for a
current ticket; `StalePushFailsWithRoom` is a schedule in which it does not. A call left alone returns (`MpmcProgress`).

**Bitonic sort** (`Words`, `Bitonic`, `BitonicSort`, `BufferedSort`). The network sorts any length. `Bitonic` proves it on
sequences, by thresholds; `BitonicSort` proves the in-place procedures against that, and `BufferedSort` the procedures that
work on a stored array through a small buffer.

**Configuration trees as text** (`ConfigTree`, `Numerals`, `Tokenizer`, `Lexer`, `TomlText`, `TomlParse`, `TomlLex`,
`TomlValues`, `TomlTables`, `TomlRoundTrip`, `TomlImage`, `TomlLoss`, `TomlFaults`, `TomlExact`, `TomlDocuments`,
`TomlHeaders`, `TomlComments`, `TomlGrammar`, `TomlParser`, `TomlPrinter`). A trie of tokens, a lexer that can be rewound, a
recursive parser over it, and a printer over string streams. `TomlText` and `TomlParse` are the texts and results as
functions; the classes `Lexer`, `TomlParser` and the methods of `TomlPrinter` do the work step by step and are proved
equal to them. `TomlRoundTrip.Restorable` says which trees come back: 32-bit integers, booleans, doubles as far as the C++
library prints them with a dot and reads them back, strings that no word of theirs closes or escapes, arrays, and
non-empty dicts; keys are single words, and keys that become part of a table header have no dot. That no other tree comes
back is not obvious, as a string that breaks off could hold the text of entries that put everything right again. It is
proved by counting quotation marks: a parse that gives the tree must use all those of the text, so that nothing with a
quotation mark in it can have been overridden on the way (`TomlImage`, `TomlLoss`, `TomlFaults`, `TomlExact`,
`TomlDocuments`). Header keys that break up are covered by weighing the keys on the way to each value (`TomlHeaders`).
`TomlGrammar` is a grammar apart from the parser: forms, what they mean, and which words spell them; the parser takes exactly
the texts that spell one. Comments and white space between words do not matter (`TomlComments`).

**Paged memory** (`Bytes`, `FreeSpans`, `FreeListRep`, `FreeListSteps`, `FreeList`, `FreeListTheorems`, `AllocatorState`,
`AllocatorSteps`, `Allocator`, `Segments`, `ArrayLife`, `AllocatorRuns`). The free list lives in the bytes of its block: `FreeListRep.Holds` says that
following the links finds exactly the maximal gaps between the live segments. The methods of `FreeList` read and write
those bytes. The class `Allocator` keeps a bounded number of blocks in memory and the others in a persister.
`Allocator.Memory ()` is what its callers see, one flat map from live segments to bytes, and each method says what becomes
of it. Blocks whose segments were all freed are erased but, unless they are last, stay listed; a later
allocation may try to read one back, and the local persister then throws. `Allocate` says exactly when, and
`AllocatorRuns.AllocationThrows` is a run that does. A full block of an array stays the array's own through every other
call exactly if an element spares less than a node (`ArrayLife`); otherwise `AllocatorRuns.StrangerIsLost`.

**Task pool** (`TaskPool`, `TaskPoolOrder`). One submitting thread and any number of workers, over two counting semaphores, a mailbox, two
counters and a termination flag, each access a step.

**Messages and actor systems** (`RawCodec`, `RawReading`, `RawExact`, `RawStream`, `WireFormat`, `ActorMessages`, `ActorRequests`,
`WorkerTokens`). The binary encoding with its reader and writer, whole messages, the tables that match responses to requests, and the tokens that
wake worker threads. `Options` and `Occurrences` are shared helpers.

Where the code and the words around it disagree the models follow the code:

- The binary readers check a length and then add to it what they took, where they should subtract. Round trips hold all
  the same, as long as the 32-bit length does not wrap around. A tree or message that is cut short is never read as one,
  but the check notices only a read that wants more than the bytes ahead and twice those behind it; a shorter one runs
  over the end (`RawReading.CutInStep`; `RawReading.TruncatedInt` for integers).
- `free_list_allocate` adds four to the size in 32 bits; `FreeListTheorems.HugeRequestWraps` is what follows.
- The merge with the previous node in `free_list_free_inner` can never happen.
- `allocateSegments` ignores that its last allocation may fail; `Segments.AllocateSegments` says when it does,
  in terms of the sizes, and `AllocatorRuns.RestIsRefused` is a run that does.

## Model

| member | source | states |
|---|---|---|
| `MpmcTheorems.StepKeepsInv` | src/rd_utils/foreign/queue.hh:196-260 | every atomic step of every thread, a spurious failure of the weak compare-and-swap included, keeps the invariant on counters, tickets, values and claims |
| `MpmcTheorems.CountersStayBounded` | src/rd_utils/foreign/queue.hh:196-260 | in every reachable state `pop_count <= push_count <= pop_count + 1` in each slot and `0 <= w_count - r_count <= size` |
| `MpmcTheorems.PopReturnsTheValuePushedUnderItsTicket` | src/rd_utils/foreign/queue.hh:229-260 | in every schedule a pop returns the value of the one push that claimed the same ticket |
| `MpmcTheorems.ReturnsAreFresh` | src/rd_utils/foreign/queue.hh:229-260 | no step changes or repeats what was returned under a ticket: each ticket is returned at most once |
| `MpmcTheorems.NothingLostNothingReordered` | src/rd_utils/foreign/queue.hh:196-260 | at rest, values popped followed by values still stored are the values pushed, in ticket order |
| `MpmcTheorems.HolderOwnsItsSlot` | src/rd_utils/foreign/queue.hh:215-222 | between a claim and its publishing store no other thread's step writes that slot, and no reader reads it while a push is in flight |
| `MpmcTheorems.FailedCallChangesNothing` | src/rd_utils/foreign/queue.hh:207-209 | a call that returns false has left counters and slots as the other threads made them |
| `MpmcTheorems.CurrentPushFailsIff` | src/rd_utils/foreign/queue.hh:199-209 | with a current ticket Push returns false exactly when the value of one revolution earlier is still in its slot; `MpmcProgress.PushFailsOnlyOnTakenSlot` covers the other tickets |
| `MpmcTheorems.CurrentPopFailsIff` | src/rd_utils/foreign/queue.hh:232-242 | with a current ticket Pop returns false exactly when the earlier pop of the slot is through and this ticket is not published |
| `MpmcTheorems.StalePushFailsWithRoom` | src/rd_utils/foreign/queue.hh:199-225 | the schedule in which a stale ticket makes Push return false on a queue that never held more than one value |
| `MpmcTheorems.SoloPushAppends` | src/rd_utils/foreign/queue.hh:196-227 | run by one thread, Push appends to a bounded FIFO and fails exactly when it is full |
| `MpmcTheorems.SoloPopTakesOldest` | src/rd_utils/foreign/queue.hh:229-260 | run by one thread, Pop takes the oldest value and fails exactly when there is none |
| `MpmcProgress.PushFailsOnlyOnTakenSlot` | src/rd_utils/foreign/queue.hh:199-225 | in every schedule the only step that makes a push return false is the one that finds a value in its ticket's slot that is not popped: a lost exchange never does |
| `MpmcProgress.PopFailsOnlyOnEmptySlot` | src/rd_utils/foreign/queue.hh:232-258 | the only step that makes a pop return nothing is the one that finds its ticket's slot empty |
| `MpmcProgress.PushFromClaim` | src/rd_utils/foreign/queue.hh:211-222 | a push whose exchange was lost goes round with the ticket it found, and, left alone, lands unless the queue is full |
| `MpmcProgress.PopFromClaim` | src/rd_utils/foreign/queue.hh:244-255 | so does a pop, and takes the oldest value unless there is none |
| `MpmcProgress.PushLeftAloneFinishes` | src/rd_utils/foreign/queue.hh:199-225 | obstruction freedom: from every reached state in which no other call is under way, a push at whatever point returns within eight of its own steps, having appended its value or changed nothing |
| `MpmcProgress.PopLeftAloneFinishes` | src/rd_utils/foreign/queue.hh:232-258 | so does a pop, having taken the oldest value or changed nothing |
| `MpmcSafety.Window` | src/rd_utils/foreign/queue.hh:196-260 | the ticket window: the counters never drift further apart than the slots allow |
| `MpmcSafety.ClaimPushStep` | src/rd_utils/foreign/queue.hh:214-217 | claiming a push ticket keeps the invariant |
| `MpmcSafety.PublishPushStep` | src/rd_utils/foreign/queue.hh:219-221 | publishing a pushed value keeps the invariant |
| `MpmcSafety.ClaimPopStep` | src/rd_utils/foreign/queue.hh:247-250 | claiming a pop ticket keeps the invariant |
| `MpmcSafety.PublishPopStep` | src/rd_utils/foreign/queue.hh:252-254 | publishing a pop keeps the invariant |
| `Tickets.NextRevolution` | src/rd_utils/foreign/queue.hh:211-212 | the next ticket of a slot is one revolution later |
| `Tickets.DistinctSlots` | src/rd_utils/foreign/queue.hh:200 | tickets less than `size` apart have distinct slots |
| `BitonicSort.Flp2` | src/rd_utils/memory/cache/algorithm/bitonicsort.cc:5-12 | for every 32-bit argument above 0 the five smearing steps give the greatest power of two not above it |
| `Bitonic.GreatestPow2Unique` | src/rd_utils/memory/cache/algorithm/bitonicsort.cc:5-12 | there is only one such power of two |
| `Bitonic.MergeStepSorts` | src/rd_utils/memory/cache/algorithm/bitonicsort.hh:24-40 | 0-1 principle: seen through any threshold, merging a valley-shaped range (or a cyclically bitonic one of power-of-two length) sorts it, whatever its length |
| `Bitonic.MergeAscends` | src/rd_utils/memory/cache/algorithm/bitonicsort.hh:24-40 | merging a descending run and an ascending one, of any lengths, gives an ascending sequence |
| `Bitonic.MergeDescends` | src/rd_utils/memory/cache/algorithm/bitonicsort.hh:24-40 | the same in the other direction |
| `Bitonic.MergePermutes` | src/rd_utils/memory/cache/algorithm/bitonicsort.hh:24-40 | merging permutes |
| `Bitonic.SortSorts` | src/rd_utils/memory/cache/algorithm/bitonicsort.hh:106-115 | sorting orders every sequence of every length, in the direction asked for, and permutes it |
| `BitonicSort.Round` | src/rd_utils/memory/cache/algorithm/bitonicsort.hh:27-35 | the exchange loop does one round of the network on its range and nothing elsewhere |
| `BitonicSort.MergeBlock` | src/rd_utils/memory/cache/algorithm/bitonicsort.hh:24-40 | in place, the range becomes its merge and the rest of the array is untouched |
| `BitonicSort.SortVec` | src/rd_utils/memory/cache/algorithm/bitonicsort.hh:107-115 | in place, the range becomes its sorted form and the rest of the array is untouched |
| `BitonicSort.SortAscending` | src/rd_utils/memory/cache/algorithm/bitonicsort.hh:117-120 | the whole array ends ascending and a permutation of what it was |
| `BufferedSort.CompareHalves` | src/rd_utils/memory/cache/algorithm/bitonicsort.hh:54-56 | the loop over a buffered pair of chunks exchanges them element by element |
| `BufferedSort.BufferedRound` | src/rd_utils/memory/cache/algorithm/bitonicsort.hh:45-60 | chunk pairs are disjoint and cover the range: the buffered round equals the one in memory, for every buffer of at least two elements |
| `BufferedSort.MergeThroughBuffer` | src/rd_utils/memory/cache/algorithm/bitonicsort.hh:62-65 | a part that fits the buffer is merged there |
| `BufferedSort.BitonicMerge` | src/rd_utils/memory/cache/algorithm/bitonicsort.hh:43-78 | the buffered merge of a stored array yields the sequence the in-memory merge yields |
| `BufferedSort.BitonicSortStored` | src/rd_utils/memory/cache/algorithm/bitonicsort.hh:82-96 | so does the buffered sort |
| `BufferedSort.SortStoredAscending` | src/rd_utils/memory/cache/algorithm/bitonicsort.hh:99-103 | the stored array ends ascending and a permutation of what it was |
| `Tokenizer.InsertIsUpdate` | src/rd_utils/utils/tokenizer.cc:24-45 | inserting into the trie updates the map from strings to flags at one string |
| `Tokenizer.LenIsLongest` | src/rd_utils/utils/tokenizer.cc:47-69 | `len` gives the longest stored prefix with that token's flags |
| `Tokenizer.InsertTokenIsUpdate` | src/rd_utils/utils/tokenizer.cc:94-108 | inserting a token updates the map at that token; the empty token is ignored |
| `Tokenizer.NextIsLongestOrRun` | src/rd_utils/utils/tokenizer.cc:110-129 | `next` gives the longest matching token, else the run up to the next token head, else 0 |
| `Tokenizer.LastInsertionWins` | src/rd_utils/utils/tokenizer.cc:94-108 | the trie built from a list of tokens is the last-insertion-wins map |
| `Tokenizer.HeadsOfBuild` | src/rd_utils/utils/tokenizer.cc:94-108 | its heads are the first characters of the tokens |
| `Lexer.LexedConcat` | src/rd_utils/utils/lexer.cc:137-173 | lexing is lossless: the words concatenate to the text |
| `Lexer.PositionsAreTrue` | src/rd_utils/utils/lexer.cc:137-173 | each word's line and column are those of its place in the text, if no longer word hides a newline |
| `Lexer.WordsAreWhereTheySay` | src/rd_utils/utils/lexer.cc:137-173 | so the line and column stored with a word are where the word is |
| `Lexer.WordsHaveOneNewline` | src/rd_utils/utils/lexer.cc:137-173 | no word does when "\n" is a token and no longer token contains one |
| `Lexer.ReadAll` | src/rd_utils/utils/lexer.cc:137-173 | the loop stores exactly the words of the text, with their flags and positions |
| `Lexer.Lexer.constructor` | src/rd_utils/utils/lexer.cc:11-22 | a new lexer stands before the first word |
| `Lexer.Lexer.Next` | src/rd_utils/utils/lexer.cc:24-42 | gives the next word that is neither skipped nor in a comment, as it was stored, line and column included, and records where it was read from |
| `Lexer.Lexer.DirectNext` | src/rd_utils/utils/lexer.cc:44-55 | gives the next word whatever it is, as it was stored |
| `Lexer.Lexer.GotoNextToken` | src/rd_utils/utils/lexer.cc:124-134 | stops right after the first occurrence of the closing word, or at the end of the text if there is none |
| `Lexer.CommentEndsAtFirst` | src/rd_utils/utils/lexer.cc:124-134 | a comment ends with the first word that closes it; one that is never closed takes all words |
| `Lexer.Lexer.Rewind` | src/rd_utils/utils/lexer.cc:79-95 | goes back to the cursor recorded before the last `nb` words, not counting a failed read at the end |
| `Lexer.Lexer.RewindTo` | src/rd_utils/utils/lexer.cc:98-118 | goes back to the last record of a cursor, or forgets all records if there is none |
| `Lexer.ReadAndRewind` | src/rd_utils/utils/lexer.cc:24-95 | reading `n` words, and past the end if asked, is undone by `rewind (n)` |
| `ConfigTree.InsertLast` | src/rd_utils/utils/config/dict.cc:50-54 | a new greatest key goes last |
| `ConfigTree.InsertBetween` | src/rd_utils/utils/config/dict.cc:50-54 | a key goes between its neighbours |
| `ConfigTree.InsertTwice` | src/rd_utils/utils/config/dict.cc:50-54 | a second insertion under a key replaces the first |
| `ConfigTree.InnerDictInserted` | src/rd_utils/utils/config/dict.cc:56-63 | a dict just inserted is the one found under its key |
| `Numerals.IntTextRead` | src/rd_utils/utils/toml_parser.cc:150-154 | printing and `std::stoi` are inverse exactly on 32-bit integers; others throw |
| `TomlLex.LexTok` | src/rd_utils/utils/toml_parser.cc:36-43 | a token character is a word of its own |
| `TomlLex.LexRun` | src/rd_utils/utils/toml_parser.cc:36-43 | a run without token characters, cut by one, is a word |
| `TomlValues.LexAppend` | src/rd_utils/utils/toml_parser.cc:36-43 | texts that meet at a token are cut into words separately |
| `TomlValues.StringRead` | src/rd_utils/utils/toml_parser.cc:161-177 | a string reads back exactly when no word of it closes or escapes the literal |
| `TomlRoundTrip.PlainStringSurvives` | src/rd_utils/utils/toml_parser.cc:161-177 | strings without quote and backslash do |
| `TomlValues.QuotedRead` | src/rd_utils/utils/toml_parser.cc:161-177 | between quotes of either kind exactly the strings without a word that closes or escapes them are read as they stand; others fail or become another string |
| `TomlValues.ValueRead` | src/rd_utils/utils/toml_parser.cc:179-204 | every readable value, printed in any layout and followed by a token, reads back and leaves the rest |
| `TomlValues.ItemsRead` | src/rd_utils/utils/toml_parser.cc:137-148 | the items of an array read back through commas, new lines and indentation |
| `TomlValues.LocalRead` | src/rd_utils/utils/toml_parser.cc:114-135 | the entries of an inline dict read back in order |
| `TomlTables.NamesOfHeader` | src/rd_utils/utils/toml_parser.cc:77-82 | cutting a dotted header gives the path it was made from |
| `TomlTables.GlobalRead` | src/rd_utils/utils/toml_parser.cc:114-135 | a table reads back up to the next header, which is left to be read |
| `TomlTables.SuperValuesRead` | src/rd_utils/utils/toml_parser.cc:98-109 | the direct values of the root read back first |
| `TomlTables.TablesPrinted` | src/rd_utils/utils/toml_parser.cc:245-276 | what the recursive printer emits last is a flat list of tables with their paths |
| `TomlTables.TablesRead` | src/rd_utils/utils/toml_parser.cc:73-112 | the tables are read one by one and stored under their paths |
| `TomlRoundTrip.StoredRestores` | src/rd_utils/utils/toml_parser.cc:85-97 | storing the tables through dotted paths rebuilds the nested dicts in place |
| `TomlRoundTrip.DumpedTreeIsReadBack` | src/rd_utils/utils/toml_parser.cc:27-43 | parsing a dumped tree gives the same tree, for every restorable tree |
| `TomlComments.CommentSkipped` | src/rd_utils/utils/lexer.cc:24-134 | what stands between a sharp and the end of its line is not read, whatever it is |
| `TomlComments.CommentLineDropped` | src/rd_utils/utils/toml_parser.cc:36-43 | any text is parsed as if its first line, a comment, were not there |
| `TomlComments.OnlyComment` | src/rd_utils/utils/toml_parser.cc:36-43 | a text that is one unclosed comment is an empty configuration |
| `TomlComments.GapSkipped` | src/rd_utils/utils/lexer.cc:24-134 | between two words any white space and any comments will do |
| `TomlComments.AnyLayoutIsReadBack` | src/rd_utils/utils/toml_parser.cc:27-43 | a restorable tree is read back from its text however the lines are spaced and commented: at the start, behind any value or header, and between any two lines |
| `TomlGrammar.ValueIsSpelled` | src/rd_utils/utils/toml_parser.cc:114-204 | the parser reads a value, and leaves the rest, exactly if the words spell a form of the grammar that means this value |
| `TomlGrammar.TextIsSpelled` | src/rd_utils/utils/toml_parser.cc:73-112 | it gives a tree exactly for the texts that spell a document of the grammar that means this tree: values first, then tables |
| `TomlGrammar.OthersFail` | src/rd_utils/utils/toml_parser.cc:73-234 | every other text is an error |
| `TomlText.TextLayout` | src/rd_utils/utils/toml_parser.cc:245-335 | a text with a value, a table, an inline dict and an array, character for character |
| `TomlDocuments.TreeComesBackIff` | src/rd_utils/utils/toml_parser.cc:27-43 | parsing a dumped tree gives the same tree exactly if it is restorable, for trees whose doubles the C++ library prints with a dot and reads back and whose header keys are fit for headers |
| `TomlHeaders.HeaderKeysDecide` | src/rd_utils/utils/toml_parser.cc:77-97 | where all values survive, the same equivalence with any token-free header keys: an empty one, one with a dot, or a last one with a NUL never comes back |
| `TomlFaults.ValueComesBackIff` | src/rd_utils/utils/toml_parser.cc:179-204 | a printed value is read back, and the rest left, exactly if it is readable, arrays and inline dicts included |
| `TomlExact.ParsedIsGrown` | src/rd_utils/utils/toml_parser.cc:73-112 | whatever the text, a parsed tree has names for keys and 32-bit integers everywhere: a tree with a key that is no word, or a bigger integer, never comes back |
| `TomlImage.ValueMakes` | src/rd_utils/utils/toml_parser.cc:179-204 | whatever the words, a value read from them has words for keys, sorted non-empty inline dicts, and no more quotation marks than they |
| `TomlExact.GlobalMakes` | src/rd_utils/utils/toml_parser.cc:73-112 | so has a whole tree, but for empty tables and header names |
| `TomlLoss.DictKeeps` | src/rd_utils/utils/toml_parser.cc:114-135 | if no quotation mark is lost in a dict, what was read into it with one is in it at the end |
| `TomlExact.GlobalKeeps` | src/rd_utils/utils/toml_parser.cc:73-112 | the same for a whole text, through inner dicts |
| `TomlFaults.FaultyValue` | src/rd_utils/utils/toml_parser.cc:161-204 | reading a faulty value without losing a quotation mark leaves a value with one that should not be there |
| `TomlFaults.FaultyTable` | src/rd_utils/utils/toml_parser.cc:114-135 | so does reading a faulty table, unless the rest cannot be read |
| `TomlDocuments.FaultlessTables` | src/rd_utils/utils/toml_parser.cc:73-112 | if the parse ends with the tree printed, all its tables are good |
| `TomlHeaders.NamesAreKeys` | src/rd_utils/utils/toml_parser.cc:77-97 | if storing tables under the names in their headers gives the tree, the names are its keys |
| `TomlRoundTrip.EmptyTableIsLost` | src/rd_utils/utils/toml_parser.cc:245-276 | a top-level dict without entries leaves no trace |
| `TomlRoundTrip.EmptyInlineDictNotRead` | src/rd_utils/utils/toml_parser.cc:114-135 | an inline dict without entries does not read back |
| `TomlRoundTrip.DottedKeySplits` | src/rd_utils/utils/toml_parser.cc:77-97 | a table under a key with a dot comes back as a table inside a dict |
| `TomlParser.Tokenize` | src/rd_utils/utils/tokenizer.cc:143-171 | the loop cuts a header name at its dots |
| `TomlParser.TomlParser.AssertRead` | src/rd_utils/utils/toml_parser.cc:206-223 | the next word if it is expected, else a throw, also at the end |
| `TomlParser.TomlParser.ReadIf` | src/rd_utils/utils/toml_parser.cc:225-234 | consumes the next word only if it is expected |
| `TomlParser.TomlParser.ParseValue` | src/rd_utils/utils/toml_parser.cc:179-204 | reads what the value grammar says and leaves the cursor behind it; at the end of the text the rewind makes it throw |
| `TomlParser.TomlParser.ParseString` | src/rd_utils/utils/toml_parser.cc:161-177 | joins words up to the unescaped closing quote |
| `TomlParser.TomlParser.ParseArray` | src/rd_utils/utils/toml_parser.cc:137-148 | reads an array, rewinding over a first word that does not close it |
| `TomlParser.TomlParser.ParseDict` | src/rd_utils/utils/toml_parser.cc:114-135 | reads an inline dict, or a table up to the next header, over which it rewinds |
| `TomlParser.TomlParser.ParseGlobal` | src/rd_utils/utils/toml_parser.cc:73-112 | reads the whole text |
| `TomlParser.ParseText` | src/rd_utils/utils/toml_parser.cc:12-15 | parsing a text, exceptions included |
| `TomlPrinter.DumpArray` | src/rd_utils/utils/toml_parser.cc:305-335 | appends an array, each item after a string, array or dict on a line of its own |
| `TomlPrinter.DumpLocalDict` | src/rd_utils/utils/toml_parser.cc:292-303 | appends an inline dict |
| `TomlPrinter.DumpGlobalDict` | src/rd_utils/utils/toml_parser.cc:278-290 | appends the entries of a table |
| `TomlPrinter.DumpSuperDict` | src/rd_utils/utils/toml_parser.cc:245-276 | appends direct values first and tables last, through two streams |
| `TomlPrinter.DumpAndParse` | src/rd_utils/utils/toml_parser.cc:12-32 | the printer's streams and the parser's cursor together give the tree back if it is restorable, and, under the same conditions on doubles and header keys, only then |
| `FreeList.Create` | src/rd_utils/memory/cache/free_list.cc:7-22 | one node over the whole block, nothing live |
| `FreeList.FindBestFit` | src/rd_utils/memory/cache/free_list.cc:24-46 | finds the first of the smallest fitting nodes, exactly when one fits, and the node before it |
| `FreeList.AllocateInner` | src/rd_utils/memory/cache/free_list.cc:48-83 | takes the request from the front of the smallest fitting node, at least what was asked for and at most a node more |
| `FreeList.RealSizeIsEnough` | src/rd_utils/memory/cache/free_list.cc:85-89 | the segment holds what was asked for exactly when `size + 4` does not wrap around |
| `FreeListTheorems.HugeRequestWraps` | src/rd_utils/memory/cache/free_list.cc:85-89 | a request of nearly 2^32 bytes gets four |
| `FreeList.Allocate` | src/rd_utils/memory/cache/free_list.cc:91-103 | succeeds exactly when the real size is at most `free_list_max_size + 4`; the segment has the real size and at most a node more, in the first of the smallest nodes that fit; keeps the list canonical and every live byte |
| `FreeList.FitsIff` | src/rd_utils/memory/cache/free_list.cc:199-210 | some node fits exactly when the biggest one does |
| `FreeList.InsertNode` | src/rd_utils/memory/cache/free_list.cc:138-164 | frees a segment before a node, taking the node in if they touch; the merge with the node before it is dead code |
| `FreeList.GrowNode` | src/rd_utils/memory/cache/free_list.cc:120-135 | frees a segment just behind a node, and joins the next one if they touch |
| `FreeList.FreeInner` | src/rd_utils/memory/cache/free_list.cc:105-181 | the search ends in one of the cases: freeing a live segment always succeeds |
| `FreeList.Free` | src/rd_utils/memory/cache/free_list.cc:183-189 | freeing a live segment succeeds, keeps the list canonical and every byte of the others |
| `FreeList.IsEmpty` | src/rd_utils/memory/cache/free_list.cc:191-197 | true exactly when nothing is live |
| `FreeList.MaxFree` | src/rd_utils/memory/cache/free_list.cc:199-210 | the biggest node, less four bytes |
| `FreeSpans.TakeKeepsCanonical` | src/rd_utils/memory/cache/free_list.cc:48-83 | allocation keeps nodes ordered, apart and tiling the block with the live segments |
| `FreeSpans.ReleaseKeepsCanonical` | src/rd_utils/memory/cache/free_list.cc:105-181 | so does release |
| `FreeSpans.CanonicalUnique` | src/rd_utils/memory/cache/free_list.cc:105-181 | the list is determined by which bytes are live |
| `FreeSpans.WholeIffNothingLive` | src/rd_utils/memory/cache/free_list.cc:191-197 | one node over the whole block exactly when nothing is live |
| `FreeListSteps.AllocStep` | src/rd_utils/memory/cache/free_list.cc:48-103 | the words written by an allocation leave list, headers and live bytes as they must be |
| `FreeListSteps.NewNodeStep` | src/rd_utils/memory/cache/free_list.cc:138-178 | so do those of a release that makes a node |
| `FreeListSteps.GrownNodeStep` | src/rd_utils/memory/cache/free_list.cc:120-135 | and those of a release that makes a node longer |
| `FreeListTheorems.ListDependsOnLiveBytesOnly` | src/rd_utils/memory/cache/free_list.cc:48-189 | blocks with the same live bytes have the same list, whatever their history |
| `FreeListTheorems.AllocateAndFree` | src/rd_utils/memory/cache/free_list.cc:91-189 | allocating and freeing restores the list |
| `FreeListTheorems.FreeEverything` | src/rd_utils/memory/cache/free_list.cc:183-197 | freeing all segments in any order leaves the fresh list |
| `Allocator.Allocator.constructor` | src/rd_utils/memory/cache/allocator.cc:28-52 | an allocator without blocks |
| `Allocator.Allocator.Oldest` | src/rd_utils/memory/cache/allocator.cc:392-400 | the scan finds the least recently used loaded block |
| `Allocator.Allocator.EvictSome` | src/rd_utils/memory/cache/allocator.cc:388-416 | saves and drops the oldest loaded blocks; nothing stored changes |
| `Allocator.Allocator.Load` | src/rd_utils/memory/cache/allocator.cc:355-386 | brings a block in and makes it the youngest, exactly when it is loaded or saved; reading a freed block throws |
| `Allocator.Allocator.Read` | src/rd_utils/memory/cache/allocator.cc:298-303 | returns the bytes last written to the segment, whatever was evicted and reloaded |
| `Allocator.Allocator.Write` | src/rd_utils/memory/cache/allocator.cc:305-310 | changes the bytes written to, and no others |
| `Allocator.Allocator.LoadBoth` | src/rd_utils/memory/cache/allocator.cc:314-315 | the first of two blocks is still loaded after the second exactly when they are one or two may be loaded |
| `Allocator.Allocator.Copy` | src/rd_utils/memory/cache/allocator.cc:312-319 | copies from one live segment to another, changing no other byte |
| `Allocator.Allocator.FreeBlock` | src/rd_utils/memory/cache/allocator.cc:418-440 | drops an empty block; the trailing pops never drop a live segment |
| `Allocator.Allocator.Free` | src/rd_utils/memory/cache/allocator.cc:249-261 | removes one segment from memory and no other |
| `Allocator.Allocator.FreeFast` | src/rd_utils/memory/cache/allocator.cc:263-267 | removes all segments of a block and no others |
| `Allocator.Allocator.TryLoaded` | src/rd_utils/memory/cache/allocator.cc:175-186 | takes a loaded block exactly when one has room |
| `Allocator.Allocator.TryStored` | src/rd_utils/memory/cache/allocator.cc:188-199 | takes the first stored block with room; throws exactly when that one was freed |
| `Allocator.Allocator.AllocateNewBlock` | src/rd_utils/memory/cache/allocator.cc:336-353 | adds a block behind all others; evicts one, the oldest, exactly if no more may be loaded |
| `Allocator.Allocator.Allocate` | src/rd_utils/memory/cache/allocator.cc:165-218 | adds one fresh segment to memory, of the size asked for and at most a node and four bytes more, and changes nothing else; refuses, and throws, exactly under the stated conditions |
| `Allocator.Allocator.Resize` | src/rd_utils/memory/cache/allocator.cc:140-148 | changes the number of loadable blocks, at least two, and nothing stored; evicts exactly the excess, the oldest first |
| `Allocator.Allocator.IsLoaded` | src/rd_utils/memory/cache/allocator.cc:321-326 | agrees with the table of loaded blocks |
| `AllocatorSteps.MaximalMeansFreed` | src/rd_utils/memory/cache/allocator.cc:418-440 | a block is recorded with the maximal size exactly when nothing in it is live |
| `AllocatorSteps.LastBlock` | src/rd_utils/memory/cache/allocator.cc:429-440 | the block popped at the end is freed and has no memory |
| `AllocatorSteps.EvictedInv` | src/rd_utils/memory/cache/allocator.cc:388-416 | evicting keeps the invariant: loaded table, block memories, persister and recorded sizes agree |
| `AllocatorSteps.SourceStays` | src/rd_utils/memory/cache/allocator.cc:312-319 | by LRU order the block just loaded is not the one evicted next, if two may be loaded |
| `AllocatorState.WriteInside` | src/rd_utils/memory/cache/allocator.cc:305-310 | writing inside a segment leaves the block's list and other segments alone |
| `Segments.AllocateSegments` | src/rd_utils/memory/cache/allocator.cc:220-247 | consecutive full blocks with their segment at `ALLOC_HEAD_SIZE`, `nbBlocks * blockSize + rest = size`, `rest > 0`; the rest, which `RestOf` computes from the sizes, is outside the full blocks, and refused exactly when it exceeds `max_allocable - 4` |
| `Segments.RestIs` | src/rd_utils/memory/cache/allocator.cc:226-236 | the sizes determine the rest |
| `Segments.FillBlocks` | src/rd_utils/memory/cache/allocator.cc:226-236 | the first loop fills blocks with whole elements and ends with a rest below a block |
| `Segments.FullBlockRoom` | src/rd_utils/memory/cache/allocator.cc:227-230 | what is left of a full block is less than an element |
| `ArrayLife.RoomBesideSegment` | src/rd_utils/memory/cache/allocator.cc:165-201 | in every valid state, however reached, some allocation can land in a block with a single segment exactly if the segment leaves a node and four bytes of it |
| `ArrayLife.FullBlockTakesMoreIff` | src/rd_utils/memory/cache/allocator.cc:220-247 | in a block just filled some allocation fits exactly when an element spares a node |
| `ArrayLife.CallKeepsBlocks` | src/rd_utils/memory/cache/allocator.cc:165-267 | an allocation, a release of something else, a write or a resize leaves the full blocks to the array |
| `ArrayLife.RunKeepsBlocks` | src/rd_utils/memory/cache/allocator.cc:165-267 | so does every run of such calls |
| `ArrayLife.OwnedBlocks` | src/rd_utils/memory/cache/collection/array.cc:118-135 | blocks that are the array's own hold its segments and no others |
| `ArrayLife.Act` | src/rd_utils/memory/cache/allocator.cc:140-319 | allocate, free, read, write, copy and resize are such calls, and change nothing else |
| `ArrayLife.ArrayAmongOthers` | src/rd_utils/memory/cache/collection/array.cc:118-135 | from allocation to disposal, whatever a program does with other segments in between, these keep their bytes and only the array's segments go, if an element spares less than a node |
| `AllocatorRuns.LandBeside` | src/rd_utils/memory/cache/allocator.cc:165-186 | with a full block alone in memory, a request for what is left of it is served there |
| `AllocatorRuns.StrangerIsLost` | src/rd_utils/memory/cache/allocator.cc:220-267 | for all sizes where an element spares a node, the run in which a later segment lands in a full block and is lost with it |
| `AllocatorRuns.AllocationThrows` | src/rd_utils/memory/cache/allocator.cc:188-199 | the run in which an allocation reads a freed block back and throws |
| `AllocatorRuns.RestIsRefused` | src/rd_utils/memory/cache/allocator.cc:237-243 | the run in which the rest is between the biggest segment and a block, and is refused |
| `Segments.Dispose` | src/rd_utils/memory/cache/collection/array.cc:118-135 | gives back full blocks, with all they hold, and rest, and nothing else |
| `Segments.FreeAll` | src/rd_utils/memory/cache/allocator.cc:269-289 | frees each of several segments once, and no others |
| `TaskPool.StepKeepsInv` | src/rd_utils/concurrency/taskpool.cc:73-147 | every step of submitter and workers keeps the pool's invariant |
| `TaskPool.NoLostWakeUp` | src/rd_utils/concurrency/taskpool.cc:102-147 | a task in the box has a token, an awake worker, or a submitter about to post |
| `TaskPool.EachTaskOnce` | src/rd_utils/concurrency/taskpool.cc:102-147 | in every run each task sent waits, is held by one worker, or was run, exactly once; the order is in `TaskPoolOrder` |
| `TaskPoolOrder.BoxIsInOrder` | src/rd_utils/concurrency/mailbox.hh:56-74 | in every run, with any number of workers, what waits in the box are the last tasks sent, in order |
| `TaskPoolOrder.TakesTheOldest` | src/rd_utils/concurrency/taskpool.cc:125-147 | so a worker that takes a task takes the oldest that nobody has taken |
| `TaskPoolOrder.SingleWorkerRunsInOrder` | src/rd_utils/concurrency/taskpool.cc:102-147 | with one worker, the tasks run, the one it holds and those in the box are the tasks sent, in order |
| `TaskPoolOrder.WorkerRunsTask` | src/rd_utils/concurrency/taskpool.cc:130-142 | a worker that looks into the box runs the oldest task, counts it and posts a completion |
| `TaskPoolOrder.WokenWorkerLooks` | src/rd_utils/concurrency/taskpool.cc:125-131 | a waiting worker with a token looks into the box, unless the pool is ending |
| `TaskPool.NeverStuck` | src/rd_utils/concurrency/taskpool.cc:73-147 | while the submitter is in a call it or a worker has a next step that changes the state |
| `TaskPool.WaitingEnds` | src/rd_utils/concurrency/taskpool.cc:73-80 | while it waits, each step of anyone leaves less to do: the wait ends under every schedule |
| `TaskPool.WaitingEndsComplete` | src/rd_utils/concurrency/taskpool.cc:73-80 | it ends with nothing in the box and nothing being run |
| `TaskPool.WorkersEnd` | src/rd_utils/concurrency/taskpool.cc:86-92 | while join posts tokens each worker's step brings it nearer to its end, a waiting one's too once a token is posted, and the loop stops when all have ended |
| `TaskPool.NoWorkerLeavesEarly` | src/rd_utils/concurrency/taskpool.cc:125-147 | no worker ends while a task waits or runs |
| `TaskPool.JoinFinishes` | src/rd_utils/concurrency/taskpool.cc:82-100 | join returns after all tasks ran, and leaves a pool that can be used again |
| `TaskPoolOrder.SubmittedTaskIsQueued` | src/rd_utils/concurrency/taskpool.cc:102-123 | from every state between two calls a call of submit can be run to its end, which leaves its task behind the others in the box, and one more token |
| `TaskPoolOrder.WaitReturns` | src/rd_utils/concurrency/taskpool.cc:73-80 | from every reached state in the wait for all tasks some run ends it |
| `TaskPoolOrder.JoinReturns` | src/rd_utils/concurrency/taskpool.cc:82-100 | from every state between two calls a call of join can be run to its end, and then every task sent was run |
| `TaskPool.NoThreadsNoEnd` | src/rd_utils/concurrency/taskpool.cc:102-119 | with no worker thread the first join waits for ever: no step of anyone changes the state |
| `RawReading.EncodedIsRead` | src/rd_utils/utils/raw_parser.cc:16-158 | reading an encoded tree followed by any bytes gives the tree, or what storing its entries in turn makes of it, and exactly the bytes after it; it is rejected exactly when over the limits of 2048 items and 1 MiB |
| `RawCodec.SettledIsSame` | src/rd_utils/utils/raw_parser.cc:38-66 | a tree whose dicts are in the order of a map comes back as it is |
| `RawExact.ReadExactlyEncodings` | src/rd_utils/utils/raw_parser.cc:16-94 | bytes are read as a tree exactly if they start with an encoding of one within the limits; a dict may list its entries in any order and more than once, the last counting |
| `WireFormat.TagsAre` | src/rd_utils/utils/raw_parser.cc:96-158 | the first byte says what kind of value follows: 1 to 7 for dict, array, integer, string, double, true and false |
| `WireFormat.LowestFirst` | src/rd_utils/utils/raw_parser.cc:229-270 | numbers go out with the lowest byte first |
| `WireFormat.SampleTree` | src/rd_utils/utils/raw_parser.cc:96-158 | a tree with values of each kind but a double, byte for byte |
| `RawReading.EncodedSteps` | src/rd_utils/utils/raw_parser.cc:16-227 | on any bytes that agree with an encoded tree as far as they go, the reader does the steps of the tree, and fails as the first step that cannot be done |
| `RawReading.TruncatedTreeFails` | src/rd_utils/utils/raw_parser.cc:16-227 | a tree cut short anywhere is never read; its steps say how it fails |
| `RawReading.CutInStep` | src/rd_utils/utils/raw_parser.cc:168-227 | the step over the cut is noticed exactly when it wants more than all the bytes and those before it together; else it runs over the end |
| `RawReading.TruncatedInt` | src/rd_utils/utils/raw_parser.cc:198-206 | an integer cut to six bytes or fewer is noticed, one cut to seven or eight is read past its end |
| `RawReading.StepsAreBytes` | src/rd_utils/utils/raw_parser.cc:116-158 | the steps are over the bytes of the tree, and refuse it exactly when it is over the limits |
| `RawCodec.I64Back` | src/rd_utils/utils/raw_parser.cc:198-206 | 64-bit integers survive |
| `RawReading.KeySteps` | src/rd_utils/utils/raw_parser.cc:219-227 | a length and that many characters are read back, or fail where they are cut |
| `RawStream.Reader.ReadBytes` | src/rd_utils/utils/raw_parser.cc:168-227 | each reader checks the length, adds to it in 32 bits, and moves on; below 2^31 bytes the length is what there is and what was read, which decides exactly whether a read throws or runs over the end |
| `RawStream.Reader.Parse` | src/rd_utils/utils/raw_parser.cc:16-36 | the reader moves over one value as the encoding says |
| `RawStream.Reader.ParseDict` | src/rd_utils/utils/raw_parser.cc:38-52 | reads a counted dict, later entries overriding |
| `RawStream.Reader.ParseArray` | src/rd_utils/utils/raw_parser.cc:55-66 | reads a counted array |
| `RawStream.Writer.Dump` | src/rd_utils/utils/raw_parser.cc:96-114 | appends the encoding of a tree |
| `RawStream.Writer.DumpDict` | src/rd_utils/utils/raw_parser.cc:116-125 | appends a dict |
| `RawStream.Writer.DumpArray` | src/rd_utils/utils/raw_parser.cc:127-133 | appends an array |
| `ActorMessages.SerializedIsRead` | src/rd_utils/concurrency/actor/msg.cc:80-120 | deserializing a serialized message gives it back with the origin for its IP, exactly when its content is within the limits |
| `ActorMessages.TruncatedMessageFails` | src/rd_utils/concurrency/actor/msg.cc:80-102 | a message cut short anywhere is never taken for one; its steps say how reading fails |
| `ActorMessages.SerializedSteps` | src/rd_utils/concurrency/actor/msg.cc:80-120 | the reader does the steps of a message, and fails as the first that cannot be done |
| `ActorMessages.Serialize` | src/rd_utils/concurrency/actor/msg.cc:104-120 | writes the bytes of a message |
| `WireFormat.SampleMessage` | src/rd_utils/concurrency/actor/msg.cc:104-120 | a message byte for byte, with and without content |
| `ActorMessages.Deserialize` | src/rd_utils/concurrency/actor/msg.cc:80-102 | reads a message, failures included |
| `ActorMessages.SendAndReceive` | src/rd_utils/concurrency/actor/msg.cc:80-120 | both together |
| `ActorRequests.StepKeepsInv` | src/rd_utils/concurrency/actor/sys.cc:294-339 | every step of requesters and deliveries keeps the tables consistent |
| `ActorRequests.IdsAreNew` | src/rd_utils/concurrency/actor/sys.cc:294-299 | a new id is unknown to every table, token and requester |
| `ActorRequests.NeverPendingAndAnswered` | src/rd_utils/concurrency/actor/sys.cc:313-325 | an id is never both pending and answered, but inside a delivery to it |
| `ActorRequests.LateResponseIsDropped` | src/rd_utils/concurrency/actor/sys.cc:315-319 | a second response, or one nobody waits for, changes nothing |
| `ActorRequests.TokenMeansResponse` | src/rd_utils/concurrency/actor/ref.cc:99-107 | a future that obtains its semaphore finds its response, the first that arrived |
| `ActorRequests.NothingLost` | src/rd_utils/concurrency/actor/ref.cc:103-106 | the "not found" branch is never taken |
| `ActorRequests.AnsweredWaiterCanProceed` | src/rd_utils/concurrency/actor/ref.cc:99 | a waiter whose response is stored has its token, or gets it in the delivery's next step |
| `ActorRequests.StoredResponseIsGiven` | src/rd_utils/concurrency/actor/ref.cc:99-102 | in every reached state between deliveries a waiter whose response is stored is given it, the first that came, by obtaining its semaphore and consuming, and is free again |
| `ActorRequests.RequestIsAnswered` | src/rd_utils/concurrency/actor/ref.cc:72-102 | from every reached state, a free requester that asks and whose response is delivered is given that response, and leaves nothing in the tables |
| `ActorRequests.GivenUp` | src/rd_utils/concurrency/actor/ref.cc:82-112 | a requester whose send fails, or that times out, is free again and its id is not pending; nothing else changes |
| `ActorRequests.TimedOutResponseStays` | src/rd_utils/concurrency/actor/sys.cc:307-325 | the run in which a timeout just before a delivery leaves the response in the table |
| `ActorRequests.ResponsesAreConserved` | src/rd_utils/concurrency/actor/sys.cc:313-339 | in every run a response ever stored is in the table or was given to its waiter, never both, and is the first that came |
| `ActorRequests.LeftBehindIff` | src/rd_utils/concurrency/actor/ref.cc:108-112 | a waiter that gives up leaves a response behind exactly when its id is no longer pending as it removes it |
| `ActorRequests.LeftBehindForEver` | src/rd_utils/concurrency/actor/sys.cc:313-339 | such a response stays through every later run |
| `ActorRequests.IdsAreNeverReused` | src/rd_utils/concurrency/actor/sys.cc:294-299 | an id issued later in a run is greater |
| `ActorRequests.IdsGrow` | src/rd_utils/concurrency/actor/sys.cc:294-325 | ids only grow, and the first response under an id stays on record |
| `ActorRequests.OrphanStays` | src/rd_utils/concurrency/actor/sys.cc:327-339 | a response whose id no waiter has stays through each step |
| `WorkerTokens.TokensAreJobs` | src/rd_utils/concurrency/actor/sys.cc:135-191 | while the system runs, tokens, workers between wait and receive, and submitters between send and post add up to the queued jobs |
| `WorkerTokens.NoWorkerLeavesEarly` | src/rd_utils/concurrency/actor/sys.cc:171-186 | no worker finds an empty queue and leaves before shutdown |
| `WorkerTokens.EachJobOnce` | src/rd_utils/concurrency/actor/sys.cc:164-191 | each job sent is queued, being handled, or was handled, once |
| `WorkerTokens.QueueIsInOrder` | src/rd_utils/concurrency/actor/sys.cc:135-191 | in every run the jobs in the queue are the last ones sent, in order |
| `WorkerTokens.WaitingWorkerHandles` | src/rd_utils/concurrency/actor/sys.cc:164-191 | in every run, while the system runs, a waiting worker for which there is a token handles the oldest job and waits again |
| `WorkerTokens.SendQueues` | src/rd_utils/concurrency/actor/sys.cc:135-142 | a send puts its job behind the others and posts one token |
| `WorkerTokens.TokenEndsWorker` | src/rd_utils/concurrency/actor/sys.cc:164-191 | after shutdown a token ends a waiting worker |
| `WorkerTokens.SleepersAreWoken` | src/rd_utils/concurrency/actor/sys.cc:135-142 | a queued job has a token, or a submitter about to post one, when no worker is on its way |
| `WorkerTokens.StepKeepsInv` | src/rd_utils/concurrency/actor/sys.cc:135-191 | every step keeps these counts |

## Left out

- Memory orders weaker than sequential consistency, wrap-around of the 64-bit counters, and the move assignment of the queue. `LockFreeMailbox` is not modelled either: it ignores that a push can fail.
- Lock-freedom of the queue is not claimed: a thread can spin behind a ticket that is claimed and not published. A call that is left alone, with no other under way, does return (`MpmcProgress.PushLeftAloneFinishes`).
- Ranges of the bitonic sort beyond 2^31 elements, where the source's `int` indices overflow; elements are integers, ordered as such.
- How the C++ library prints and reads doubles: a parameter `Doubles` of the TOML model. A double printed without a dot, as 3.0 is, comes back as an integer and is outside the round trip.
- `TomlDocuments.TreeComesBackIff`: trees with doubles that do not survive are left to the C++ library. Whether a tree can come back that has both a faulty value and a header key with a dot, without characters or ending in a NUL, or a single mark as a key below the top of a header, is not decided.
- `TomlParser.TomlParser.ParseGlobal`: dicts are values here, so storing a table through inner dicts rebuilds them instead of updating shared ones in place; a header without any name, on which the source reads outside a vector, is an error here.
- Files, error texts and line numbers in exceptions; the printing of trees to streams for debugging.
- `Allocator.Allocator.EvictSome`: takes the oldest block by LRU age alone; the source looks for an age below the current time plus ten, so its counter is taken to stay below that, and not to wrap around.
- Locking in the allocator, which takes its mutex twice on one path of `allocate`; calls are sequential here. Statistics (`_uniqLoads`, `_lruStamp`), the remote persister and `configure` on a used allocator are not modelled.
- `Allocator.Allocator.constructor`: needs at least one loadable block and blocks of at least 16 bytes, which the source does not check.
- `ArrayLife.ArrayAmongOthers`: the program in between makes one call at a time and holds its segments in a list; another array's allocation is a run of such calls.
- `Segments.AllocateSegments`: needs blocks that can hold a smallest segment (20 bytes); sending and receiving arrays over streams, and element access, which is in headers that are not part of this model.
- `TaskPool.NeverStuck`: tasks do not submit tasks, workers are spawned by one thread, and thread ids are not truncated; moving a pool is not modelled.
- Termination of `submit`, and of the last loop of `join`, depends on a fair scheduler: it is stated as progress of the workers, and as a run that ends the call from every reached state.
- `ActorMessages.SerializedIsRead`: messages below 2^31 bytes, from where the reader's length wraps around.
- `RawExact.ReadExactlyEncodings`: the same bound on the bytes there are.
- `ActorRequests.TokenMeansResponse`: one future per requester at a time; timeouts happen at any moment, since clocks are not modelled. That the response table need not drain is `ActorRequests.LeftBehindForEver`.
- `WorkerTokens.TokensAreJobs`: says nothing after shutdown has begun; threads are spawned one by one.
- Sockets, polling, actors and their mutexes, pipes, remote shells, subprocesses, signals, timers, logging, garbage collection, vendored command-line code, Base64, merge and insertion sort, memory sizes, paths and trace exporters: plumbing, or easy beside the above.
