# Armadito core: a verified model

A Dafny model of the parts of Armadito core, an anti-virus scanner written in C,
whose correctness is hardest to see from one function: the open-addressing hash
table of its RPC library, the configuration file parser and printer, the
on-access permission protocol, the JSON-RPC connection, the marshalling macros,
the on-demand scan and the decision on one file.

Code that updates objects in place is modelled by classes and loops, each method
tied to a function on values; the properties are lemmas about those functions.
Threads are modelled as a set of atomic steps: a run is any interleaving, and the
results hold for all runs.

| modules | component |
|---|---|
| `ProbeTable`, `Rehash`, `TableRuns`, `HashTable`, `MultHash`, `Tombstone` | hash table: probes, rehash, runs against a finite map, the class, multiplicative hashing, a run that duplicates a key |
| `ConfScan`, `ConfLexemes`, `ConfGrammar`, `ConfStore`, `ConfText`, `ConfPartial`, `ConfRoundTrip`, `ConfNames`, `ConfParser` | configuration: scanner, its laws, grammar, store, printer, texts that fail, round trip, names, and the parser's classes |
| `Stamp`, `QueueSpec`, `Queue`, `Watchdog` | time stamps, the watchdog queue on the heap, the threads' code on it |
| `Permission`, `PermissionSafety`, `PermissionSteps`, `PermissionTheorems`, `PermissionVerdicts`, `PermissionLiveness` | the permission protocol: steps, invariant, its proof, safety, verdicts, liveness |
| `JsonRpc`, `RpcConnection` | messages, connection state and its class |
| `Marshal`, `MarshalWire`, `RpcDefs` | schemas of the marshalling macros, what they send and accept, and the schemas in use |
| `FileStatus`, `ScanDecision`, `ScanConf`, `ScanContext` | status order, module loop and report, configuration cache and white list, context of one file |
| `EventSource` | list of event listeners |
| `DirWalk`, `OnDemand`, `OnDemandProgress`, `OnDemandReports`, `OnDemandScan` | directory walk, scan protocol, progress, its events and the pool, the sequential scan in place |

`dafny verify dfyconfig.toml` checks all of it.

## Where the code and its documentation differ

The model follows the code.

- A live key inserted again behind a tombstone is stored twice
  (`librpc/jrpc/hash.c:281`); `TableRuns.PutKeepsUnique` and
  `TableRuns.InsertThenRemove` give the exact condition, and
  `Tombstone.TombstoneHidesKey` a run from a new table.
- Negative ints, strings with a double quote, lists of fewer than two strings,
  and names that are not identifiers, which a file can give in quotes, do not
  survive a save; `ConfNames.SaveThenLoadExactly` shows that nothing else is lost.
- A notification whose method fails gets an error reply, which section 4.1 of the
  JSON-RPC 2.0 Specification forbids (`JsonRpc.ServerAnswers`). Request
  identifiers are unpacked as an `int`, so the callback of a call whose identifier
  is 2^32 or more never fires; the reply fires the callback still pending under
  the low 32 bits, if there is one (`RpcConnection.CallIsAnswered`,
  `RpcConnection.WrongCallbackFires`). Error responses leave the callback
  registered (`RpcConnection.PendingUntilResult`).
- The event schemas declare `scan_id` as `unsigned int` while the structs hold a
  `time_t` (`RpcDefs.ScanIdTruncated`).
- The white-list test does not compare the last character of a directory
  (`ScanConf.WhiteListExact`).
- `os_dir_map` returns 0 although an error stopped its loop
  (`DirWalk.Visitor.DirMap`), and an unreadable subdirectory ends the scan, but
  not the count, of its parent (`DirWalk.ScanVisits`).
- A module that answers `A6O_FILE_UNKNOWN_TYPE` or `A6O_FILE_EINVAL` makes the
  comparison of the next different answer fail its assertion
  (`ScanDecision.VerdictOnEveryInput`); a report can carry the text of a module
  other than the one it names (`ScanDecision.TextOfNamedModule`); after a failed
  seek the verdict and the report can disagree (`ScanDecision.VerdictIsReported`).
- `a6o_scan_context_get` does not fill the context when it gets neither
  descriptor nor path, and `scan_file` destroys it all the same
  (`ScanContext.ScanFile`).
- With a thread pool, progress events can go back
  (`OnDemandProgress.ProgressGoesBackExactly`).
- With the watchdog compiled in, a scan that is overtaken by a timeout can answer
  a later event on the same descriptor (`PermissionTheorems.ReuseMisdirects`).

## Model

| member | source | states |
|---|---|---|
| `ProbeTable.LookupIsFirst` | librpc/jrpc/hash.c:309-331 | In a table that satisfies the probe invariant, lookup returns the occurrence of the key that is nearest to its home, and nothing only if the key is nowhere |
| `ProbeTable.RoomForInsert` | librpc/jrpc/hash.c:276-288 | If fewer slots are occupied than there are, the insert probe stops at a slot |
| `ProbeTable.PutKeepsProbe` | librpc/jrpc/hash.c:276-302 | Writing a key at its insert slot keeps the probe invariant (no empty slot between a home and its key) |
| `ProbeTable.PutThenSearch` | librpc/jrpc/hash.c:268-341 | From any probe-valid table, duplicates and tombstones included, insert makes search of the key give the value and changes the search of no other key |
| `ProbeTable.SameOccurrencesSameSearch` | librpc/jrpc/hash.c:309-341 | Search depends only on where the key occurs |
| `Rehash.Doubled` | librpc/jrpc/hash.c:221-254 | The rehashed table has twice the slots, and as many occupied slots as the old one had slots, because empty and removed slots are entered too |
| `Rehash.EnteredProbeOK` | librpc/jrpc/hash.c:234-251 | At every moment of the rehash loop the new table satisfies the probe invariant |
| `Rehash.EnteredMaps` | librpc/jrpc/hash.c:234-251 | The new table holds a non-NULL key with a value exactly when an entered slot did, whatever phantom NULL keys are entered |
| `Rehash.EnteredUnique` | librpc/jrpc/hash.c:234-251 | A rehash introduces no duplicate of a non-NULL key |
| `Rehash.EnteredOwned` | librpc/jrpc/hash.c:248-250 | The multiset of values owned is that of the slots entered |
| `Rehash.DoubledSearch` | librpc/jrpc/hash.c:221-254 | Without duplicates a rehash changes the answer of no search |
| `TableRuns.CheckOverflowInv` | librpc/jrpc/hash.c:256-266 | After the overflow check no rehash is due and at most 39/46 of the slots are occupied, counting phantoms and over-counted overwrites |
| `TableRuns.RoomAfterCheck` | librpc/jrpc/hash.c:262-288 | The assertion in insert never fails |
| `TableRuns.InsertInv` | librpc/jrpc/hash.c:268-307 | Insert keeps the invariant of probes, phantoms, bound on occupied slots and key count |
| `TableRuns.RemoveInv` | librpc/jrpc/hash.c:343-362 | Remove keeps the invariant |
| `TableRuns.RunNeverFillsUp` | librpc/jrpc/hash.c:221-307 | After every run with non-NULL keys the next insert finds a slot and the load bound holds; the key count is at least the number of live slots |
| `TableRuns.CheckOverflowExactly` | librpc/jrpc/hash.c:256-266 | The table doubles exactly when 23 times the key count exceeds 16 times its size; a new table has 64 slots |
| `TableRuns.RunCounts` | librpc/jrpc/hash.c:304-362 | Over every run the key count is the inserts, overwrites too, less the removes that found their key; each operation has its kind of answer |
| `TableRuns.PutKeepsUnique` | librpc/jrpc/hash.c:276-302 | In a table without duplicates an insert creates one exactly when a tombstone or gap lies before the live copy of its key |
| `TableRuns.RefinesPut` | librpc/jrpc/hash.c:268-307 | An insert that is not hidden by a tombstone is a map update |
| `TableRuns.RefinesRemove` | librpc/jrpc/hash.c:343-362 | Remove is removal from the map, and its result says whether the key was there |
| `TableRuns.RunRefines` | librpc/jrpc/hash.c:221-362 | Over every run of inserts, searches and removes whose inserts are map updates, all answers are those of a finite map, across any number of rehashes |
| `TableRuns.FreshInsertIsUpdate` | librpc/jrpc/hash.c:268-307 | Inserting a key that is not live always is a map update |
| `TableRuns.FreshRunIsUpdateRun` | librpc/jrpc/hash.c:268-362 | A run in which each insert uses a key not currently live meets the condition of RunRefines |
| `TableRuns.InsertThenRemove` | librpc/jrpc/hash.c:268-362 | In every table without duplicates, insert then remove leaves the key absent if and only if the insert was a map update of the table after its overflow check; otherwise its previous value is back |
| `Tombstone.RemovedKeyIsFound` | librpc/jrpc/hash.c:278-285 | For every hash and every two keys of one home: a run from a new table after which a removed key is found with its first value |
| `Tombstone.TombstoneHidesKey` | librpc/jrpc/hash.c:171-176 | With the hash of integer keys, 1 and 65 are such keys |
| `TableRuns.RunLedger` | librpc/jrpc/hash.c:294-300 | Over every run, duplicates or not, the values in the table and the values released are together exactly the values inserted |
| `HashTable.HashTable.constructor` | librpc/jrpc/hash.c:80-109 | A new table is the empty state of 64 slots |
| `HashTable.HashTable.FindEmpty` | librpc/jrpc/hash.c:239-246 | The probe loop of the rehash returns the first empty slot |
| `HashTable.HashTable.Rehash` | librpc/jrpc/hash.c:221-254 | In place, the table becomes the doubled table of the specification |
| `HashTable.HashTable.CheckOverflow` | librpc/jrpc/hash.c:262-266 | Rehashes exactly when 23 times the key count exceeds 16 times the size |
| `HashTable.HashTable.FindInsertSlot` | librpc/jrpc/hash.c:276-288 | The probe loop of insert, for its index and its slot |
| `HashTable.HashTable.Insert` | librpc/jrpc/hash.c:268-307 | The whole new state: slots, key count, released values |
| `HashTable.HashTable.Store` | librpc/jrpc/hash.c:294-304 | Overwrites one slot, releasing its value |
| `HashTable.HashTable.LookupEntry` | librpc/jrpc/hash.c:309-331 | The probe loop of lookup |
| `HashTable.HashTable.Search` | librpc/jrpc/hash.c:333-341 | The value found, or none |
| `HashTable.HashTable.Remove` | librpc/jrpc/hash.c:343-362 | The whole new state and the result |
| `HashTable.HashTable.Free` | librpc/jrpc/hash.c:111-128 | Freeing the table releases what was still in it: all values ever inserted are released once |
| `MultHash.HomesCollide` | librpc/jrpc/hash.c:171-176 | In a table of 2^r slots two keys have the same home exactly when they agree modulo 2^r |
| `MultHash.HashIsLowWord` | librpc/jrpc/hash.c:170-176 | The hash is the low 64 bits of the product with the multiplier |
| `MultHash.ConsecutiveHomesDistinct` | librpc/jrpc/hash.c:171-176 | As many consecutive identifiers as there are slots have pairwise distinct homes |
| `MultHash.RunSize` | librpc/jrpc/hash.c:229-232 | Every size reached is a power of two |
| `MultHash.RunHomesDistinct` | librpc/jrpc/hash.c:221-232 | In every run from a new table, as long as its size fits in a word, as many consecutive identifiers as it has slots have distinct homes |
| `ConfScan.Scan` | libcore/confparser.c:128-218 | Scanning terminates on every input, state and previous token; a token that does not stop the parser consumes input |
| `ConfScan.Lex` | libcore/confparser.c:128-218 | The tokens up to the first stopping one, and only that one stops |
| `ConfScan.ContextIsEqual` | libcore/confparser.c:165-169 | The previous token matters only when it is the equal sign |
| `ConfLexemes.CommentSkipped` | libcore/confparser.c:185-188 | A comment goes on to the end of its line, and what follows is read as if it were not there |
| `ConfLexemes.SpacesSkipped` | libcore/confparser.c:178-183 | After a blank all white space is skipped, newlines and the place after an equal sign included |
| `ConfLexemes.OtherCharacter` | libcore/confparser.c:165-176 | A character that begins no token is skipped, but after an equal sign it ends the parse and stays unread |
| `ConfLexemes.PunctuationRead` | libcore/confparser.c:170-173 | Each punctuation character is its own token |
| `ConfLexemes.IdentifierRead` | libcore/confparser.c:197-203 | An identifier is read up to the first character that cannot go on with it; one that the file ends with is lost |
| `ConfLexemes.DigitsRead` | libcore/confparser.c:205-212 | Digits are read up to the first other character; those that the file ends with are lost |
| `ConfLexemes.StringRead` | libcore/confparser.c:190-195 | A string is all that is between two quotes; one without a second quote is lost |
| `ConfLexemes.CharacterClasses` | libcore/confparser.c:90-98 | The character classes, listed |
| `ConfLexemes.KeptUpToNul` | libcore/confparser.c:379 | A name or string that is kept ends before its first NUL |
| `ConfLexemes.DigitsAreDecimal` | libcore/confparser.c:477 | Digits are decimal, the first one the highest |
| `ConfLexemes.AtoiMeaning` | libcore/confparser.c:477 | A number is cut to 32 bits, and one that does not fit in 64 reads as -1 |
| `ConfLexemes.PositionMeaning` | libcore/confparser.c:100-126 | The line counts the newlines before, the column the characters since the last of them |
| `ConfGrammar.ParserRecognisesGrammar` | libcore/include/core/conf.h:31-42 | On the tokens of every input the parser succeeds exactly when the documented grammar derives them, returns the derivation, and on failure has completed the definitions of a prefix |
| `ConfGrammar.GrammarUnambiguous` | libcore/include/core/conf.h:31-42 | The tokens determine the derivation |
| `ConfGrammar.ParseSectionsSound` | libcore/confparser.c:388-433 | What the parser returns yields the tokens it consumed |
| `ConfGrammar.ParseSectionsComplete` | libcore/confparser.c:388-433 | The parser accepts every derivation |
| `ConfStore.AddMeaning` | libcore/conf.c:157-170 | An addition is refused exactly for a key that is present; otherwise it defines that key and no other |
| `ConfPartial.AddPlace` | libcore/conf.c:157-170 | An addition goes behind the keys of its section, or as a new section behind the others; all else stays in place |
| `ConfStore.AddAllMeaning` | libcore/conf.c:202-218 | After adding definitions, exactly those before the first refused one are in the store, beside what it held |
| `ConfStore.AddAllKeeps` | libcore/conf.c:157-170 | What is defined stays defined, with the same value |
| `ConfStore.AddAllStructured` | libcore/conf.c:157-170 | Sections and keys stay distinct and no section is empty |
| `ConfStore.Rebuild` | libcore/conf.c:186-218 | Applying the definitions of a store to an empty one rebuilds it in the same order |
| `ConfStore.DefinitionLookup` | libcore/conf.c:133-146 | Each definition of a store is what a lookup of its key gives |
| `ConfText.LoadSucceeds` | libcore/confparser.c:533-554 | Loading returns success exactly when the grammar derives the text and no definition is refused, and the store then holds all definitions |
| `ConfPartial.PrefixIsDelivered` | libcore/confparser.c:340-358 | Every definition that is complete before some point of the tokens is delivered, whatever follows |
| `ConfPartial.LoadKeepsPrefix` | libcore/confparser.c:533-554 | So a text that fails gives -2 and leaves in the store every definition complete before the error |
| `ConfPartial.PrintIsSections` | libcore/conf.c:186-272 | A saved configuration is, in closed form, for each section its name in brackets and a line for each key |
| `ConfPartial.ValueText` | libcore/conf.c:236-251 | The text of a value: a decimal number without leading zeros, or strings in quotes, separated by semicolons |
| `ConfText.LexGoodValue` | libcore/conf.c:236-251 | The text of a printable value is scanned as its tokens |
| `ConfText.LexBadValue` | libcore/conf.c:236-251 | The text of any other value is rejected or read back as another value |
| `ConfRoundTrip.SaveThenLoad` | libcore/conf.c:186-272 | With identifier names, saving and loading gives the configuration back, in order, if and only if each value is a non-negative int, a quote-free string, or a list of at least two of these |
| `ConfNames.SaveThenLoadExactly` | libcore/conf.c:186-272 | For every configuration: it comes back, in order, if and only if every name is an identifier and each value is such a value |
| `ConfNames.NamesAreIdentifiers` | libcore/conf.c:231-236 | A configuration with a name that is not an identifier never comes back, however its text is read |
| `ConfNames.LoadedFromTokens` | libcore/conf.c:202-218 | A loaded store has at most as many names and strings equal to a given one as the text has tokens read as it |
| `ConfNames.ScanClosed` | libcore/confparser.c:189-203 | A string token that is not an identifier is a piece between two quotes of the text |
| `ConfNames.StoreText` | libcore/conf.c:225-252 | The pieces between quotes of a saved text are its strings, or longer than the shortest name with a number sign |
| `ConfNames.QuotedNameIsRead` | libcore/confparser.c:397-413 | A file can give every section name in quotes |
| `ConfNames.QuotedNameIsLost` | libcore/conf.c:231-234 | Such a name is lost on the next save and load unless it is an identifier |
| `ConfRoundTrip.ReadText` | libcore/conf.c:225-252 | With identifier names, what the parser reads from the saved text: the definitions of the store, or a list that departs from it |
| `ConfParser.Scanner.Getc` | libcore/confparser.c:100-114 | Reads one character and keeps line and column those of the position |
| `ConfParser.Scanner.Ungetc` | libcore/confparser.c:116-126 | One push-back restores line and column exactly |
| `ConfParser.Scanner.GetNextToken` | libcore/confparser.c:128-218 | The state loop computes the specified token and rest |
| `ConfParser.Scanner.Turn` | libcore/confparser.c:143-215 | One turn of the loop, with its read and push-back, ends the specified token or leaves the same scan to do |
| `ConfParser.Switch` | libcore/confparser.c:149-214 | The state switch on one character is one step of the specified scan |
| `ConfParser.Conf.SectionEntryGet` | libcore/conf.c:96-99 | The first section of that name |
| `ConfParser.Conf.KeyEntryGet` | libcore/conf.c:133-136 | The first key of that name |
| `ConfParser.Conf.AddValue` | libcore/conf.c:157-170 | The new store and the result of an addition |
| `ConfParser.Conf.SaveFile` | libcore/conf.c:254-272 | The text written |
| `ConfParser.Conf.SaveSection` | libcore/conf.c:194-198 | The text of one section, its header only if it has a key |
| `ConfParser.Conf.SaveFun` | libcore/conf.c:225-252 | The text of one definition, with the header when the section changes |
| `ConfParser.Conf.PrintOne` | libcore/conf.c:238-249 | The text of one value; an empty list is empty text |
| `ConfParser.Conf.PrintList` | libcore/conf.c:245-248 | The loop over a list prints what the specification of lists says |
| `ConfParser.Parser.TokenAccept` | libcore/confparser.c:307-314 | Succeeds exactly on the expected token and advances by one |
| `ConfParser.Parser.OptStringList` | libcore/confparser.c:492-517 | Collects the rest of a list |
| `ConfParser.Parser.ListItem` | libcore/confparser.c:496-497 | One separator and one list element |
| `ConfParser.Parser.ListStringValue` | libcore/confparser.c:503-517 | Moves the first string into the list, and appends |
| `ConfParser.Parser.RStringValue` | libcore/confparser.c:483-490 | Stores the string and advances |
| `ConfParser.Parser.RStringOrList` | libcore/confparser.c:450-452 | A string, or a list if a separator follows |
| `ConfParser.Parser.RValue` | libcore/confparser.c:445-480 | Parses a value as the grammar has it |
| `ConfParser.Parser.CallCallback` | libcore/confparser.c:316-354 | Delivers the value to the store and clears it; a refusal stops the parser |
| `ConfParser.Parser.RKeyEqual` | libcore/confparser.c:427-428 | A key and the equal sign |
| `ConfParser.Parser.RDefinition` | libcore/confparser.c:425-433 | One definition, parsed and delivered |
| `ConfParser.Parser.RValueDelivered` | libcore/confparser.c:429-432 | A value, parsed and delivered |
| `ConfParser.Parser.RDefinitionList` | libcore/confparser.c:416-422 | Delivers exactly the definitions of the section up to a failure |
| `ConfParser.Parser.RSectionHeader` | libcore/confparser.c:400-413 | A section header |
| `ConfParser.Parser.RSection` | libcore/confparser.c:398-404 | One section |
| `ConfParser.Parser.RSectionList` | libcore/confparser.c:389-395 | Delivers exactly the definitions of the sections up to a failure |
| `ConfParser.Parser.Parse` | libcore/confparser.c:533-554 | The store and the return code are those of the specified load |
| `ConfParser.LoadFile` | libcore/confparser.c:247-278 | A file that cannot be opened gives -1 and changes nothing; otherwise as Parse |
| `Stamp.StampArithmetic` | libcore/arch/linux/builtin-modules/on-access/stamp.h:39-81 | On normalised stamps, comparison, addition and subtraction are those of nanoseconds, and results are normalised |
| `Stamp.StampCell.StampAdd` | libcore/arch/linux/builtin-modules/on-access/stamp.h:59-69 | Addition in place |
| `Stamp.StampCell.StampSub` | libcore/arch/linux/builtin-modules/on-access/stamp.h:71-81 | Subtraction in place |
| `QueueSpec.TakesOldestExpired` | libcore/arch/linux/builtin-modules/on-access/queue.c:139-149 | A pass takes the oldest expired entries, at most n, oldest first, and leaves the others in order |
| `QueueSpec.NothingLost` | libcore/arch/linux/builtin-modules/on-access/queue.c:139-149 | Entries taken and entries kept are together the old entries |
| `QueueSpec.PassRespectsAge` | libcore/arch/linux/builtin-modules/on-access/watchdog.c:59-62 | A pass takes only entries of the given age, and one that takes fewer than n leaves none |
| `QueueSpec.MonotonePassIsSuffix` | libcore/arch/linux/builtin-modules/on-access/queue.c:139-149 | In a queue in the order of time a pass cuts a suffix |
| `Queue.Queue.constructor` | libcore/arch/linux/builtin-modules/on-access/queue.c:41-51 | An empty queue |
| `Queue.Queue.Push` | libcore/arch/linux/builtin-modules/on-access/queue.c:71-87 | The entry is put in front of the others |
| `Queue.Queue.Unlink` | libcore/arch/linux/builtin-modules/on-access/queue.c:89-100 | Node i leaves the list, and keeps its own two pointers |
| `Queue.Queue.PopFd` | libcore/arch/linux/builtin-modules/on-access/queue.c:102-126 | Removes the most recently pushed entry of that descriptor and no other, or reports that there is none |
| `Queue.Queue.PopTimeout` | libcore/arch/linux/builtin-modules/on-access/queue.c:128-157 | Removes what the specified pass takes and returns it in that order |
| `Queue.Queue.PassNode` | libcore/arch/linux/builtin-modules/on-access/queue.c:140-149 | One turn of the pass: the node is taken or kept, and the pass goes on with the one before it |
| `Queue.Queue.Visit` | libcore/arch/linux/builtin-modules/on-access/queue.c:141-148 | One node; its predecessor is still found after it is unlinked |
| `PermissionSafety.AnsweredLog` | libcore/arch/linux/builtin-modules/on-access/response.c:43-55 | A response to a pending event makes it answered, once |
| `PermissionSteps.StepInv` | libcore/arch/linux/builtin-modules/on-access/famonitor.c:179-325 | Every step of every thread keeps: each pending event has exactly one holder |
| `PermissionSteps.RunInv` | libcore/arch/linux/builtin-modules/on-access/famonitor.c:179-325 | Every interleaving keeps it |
| `PermissionTheorems.AnsweredAtMostOnce` | libcore/arch/linux/builtin-modules/on-access/famonitor.c:179-325 | In every interleaving each response and each close is on the descriptor of a pending event, no event is answered twice, queued descriptors are distinct and pending |
| `PermissionTheorems.AnsweredExactlyOnce` | libcore/arch/linux/builtin-modules/on-access/famonitor.c:179-325 | When all threads have finished, the queue is empty and each delivered event has exactly one answer |
| `PermissionLiveness.WorkDrops` | libcore/arch/linux/builtin-modules/on-access/famonitor.c:179-325 | Every step but a delivery, a tick and a look at the queue that finds nothing late leaves the threads less to do |
| `PermissionLiveness.NotStuck` | libcore/arch/linux/builtin-modules/on-access/famonitor.c:179-325 | As long as a thread has something to do, it can take a step |
| `PermissionLiveness.BusyRunsEnd` | libcore/arch/linux/builtin-modules/on-access/famonitor.c:179-325 | Without new events, whatever the clock and the timeout thread do, there are no more busy steps than there was work, and they end only at rest |
| `PermissionLiveness.ComesToRest` | libcore/arch/linux/builtin-modules/on-access/famonitor.c:179-325 | From every reachable state the threads can come to rest |
| `PermissionLiveness.EveryEventIsAnswered` | libcore/arch/linux/builtin-modules/on-access/famonitor.c:179-325 | After every run in which no thread has anything left to do but to wait, each delivered event has exactly one answer |
| `PermissionLiveness.ThreadsFinish` | libcore/arch/linux/builtin-modules/on-access/famonitor.c:179-325 | After the last delivery of any run the threads take at most as many busy steps as there is work |
| `PermissionTheorems.FaithfulRun` | libcore/arch/linux/builtin-modules/on-access/famonitor.c:179-214 | If the kernel does not reuse a descriptor that a scan refers to, every handler that answers answers its own event |
| `PermissionTheorems.PlainNeverReuses` | libcore/arch/linux/builtin-modules/on-access/watchdog.c:103-108 | With the watchdog compiled out, a descriptor is not free for reuse before its scan answers |
| `PermissionVerdicts.RunHistory` | libcore/arch/linux/builtin-modules/on-access/famonitor.c:179-325 | Every interleaving keeps: the task and the answer of a scan that has ended have its verdict, and no event is scanned twice |
| `PermissionVerdicts.OnlyScansDeny` | libcore/arch/linux/builtin-modules/on-access/famonitor.c:191-193 | In any run only a scan with verdict DENY denies |
| `PermissionVerdicts.DeniedExactly` | libcore/arch/linux/builtin-modules/on-access/famonitor.c:179-214 | If the kernel does not reuse such a descriptor, an event is denied exactly if its scan ended with DENY and its handler, not the timeout, answered |
| `PermissionVerdicts.VerdictReachesItsEvent` | libcore/arch/linux/builtin-modules/on-access/watchdog.c:34 | As compiled, every handler answers its own event, with the verdict of its scan |
| `PermissionVerdicts.MalwareIsDenied` | libcore/arch/linux/builtin-modules/on-access/watchdog.c:103-108 | As compiled, when all threads have finished, an event is denied if and only if its scan ended with DENY |
| `PermissionTheorems.ClaimIsOwnUnlessLate` | libcore/arch/linux/builtin-modules/on-access/watchdog.c:101-120 | With the watchdog, a handler that won its claim answers its own event exactly when that event is still unanswered |
| `PermissionTheorems.TimeoutsAreLate` | libcore/arch/linux/builtin-modules/on-access/watchdog.c:42-62 | In every run a timeout pass takes only events pending 100 ms, and one with fewer than 100 entries leaves none that old |
| `PermissionTheorems.PopTakesLate` | libcore/arch/linux/builtin-modules/on-access/watchdog.c:56-69 | In every run the timeout thread takes at most 100 descriptors, each of an entry that old, and if fewer leaves no such entry |
| `PermissionTheorems.RunTimeOrdered` | libcore/arch/linux/builtin-modules/on-access/watchdog.c:88-99 | In every run whose clock never goes back the queue is in the order of time |
| `PermissionTheorems.TimeoutTakesSuffix` | libcore/arch/linux/builtin-modules/on-access/watchdog.c:56-69 | In such a run a timeout pass takes a suffix of the queue, oldest first |
| `PermissionTheorems.ReuseMisdirects` | libcore/arch/linux/builtin-modules/on-access/watchdog.c:46-73 | With the watchdog, a run in which the scan of one event answers another event delivered on the same number |
| `Watchdog.Watchdog.Add` | libcore/arch/linux/builtin-modules/on-access/watchdog.c:88-99 | Pushes the descriptor, or nothing when compiled out |
| `Watchdog.Watchdog.Remove` | libcore/arch/linux/builtin-modules/on-access/watchdog.c:101-120 | Whether the caller may answer, the new queue, and the age of the entry |
| `Watchdog.Kernel.ResponseWrite` | libcore/arch/linux/builtin-modules/on-access/response.c:43-55 | The answer is logged for the event that has the descriptor, and the descriptor is closed |
| `Watchdog.AnswerTimeouts` | libcore/arch/linux/builtin-modules/on-access/watchdog.c:67-68 | The loop of answers is a run of the protocol |
| `Watchdog.PopTimedOut` | libcore/arch/linux/builtin-modules/on-access/watchdog.c:59-62 | Taking the expired entries is one step of the protocol |
| `Watchdog.TimeoutTurn` | libcore/arch/linux/builtin-modules/on-access/watchdog.c:56-70 | One turn of the timeout thread is a run of the protocol that allows the oldest expired events, oldest first |
| `Watchdog.FanotifyPass1` | libcore/arch/linux/builtin-modules/on-access/famonitor.c:291-304 | The first pass over a batch is a run of the protocol that allows the own events, in order, and puts exactly the others under the watchdog |
| `Watchdog.FirstPassEvent` | libcore/arch/linux/builtin-modules/on-access/famonitor.c:297-302 | One event of the pass is two steps of the protocol |
| `Watchdog.FirstPassTurn` | libcore/arch/linux/builtin-modules/on-access/famonitor.c:293-302 | One turn of the loop continues the run by the two steps |
| `Watchdog.NotScanned` | libcore/arch/linux/builtin-modules/on-access/famonitor.c:240-260 | An event that is not scanned is answered ALLOW exactly if it can still be claimed, by a run of the protocol |
| `Watchdog.ClaimInPass2` | libcore/arch/linux/builtin-modules/on-access/famonitor.c:249 | The claim of the monitor is one step of the protocol |
| `Watchdog.Scanned` | libcore/arch/linux/builtin-modules/on-access/famonitor.c:188-195 | A scanned event is answered, DENY exactly for malware, exactly if it can still be claimed, by a run of the protocol |
| `Watchdog.ClaimByTask` | libcore/arch/linux/builtin-modules/on-access/famonitor.c:192 | The claim of a scan thread is one step of the protocol |
| `JsonRpc.UnpackMakeCall` | librpc/jrpc/jrpc.c:97-124 | A call unpacks as the request it was made from, with its identifier modulo 2^32 |
| `JsonRpc.UnpackMakeResult` | librpc/jrpc/jrpc.c:159-162 | A result unpacks as a result response with its identifier |
| `JsonRpc.UnpackMakeError` | librpc/jrpc/jrpc.c:164-180 | An error unpacks as an error response with all its parts |
| `JsonRpc.CallMembers` | librpc/jrpc/jrpc.c:29-42 | The members of a request, and no others |
| `JsonRpc.ErrorMembers` | librpc/jrpc/jrpc.c:164-180 | The members of an error, and no others; identifier 0 is null |
| `JsonRpc.UnpackRequestExactly` | librpc/jrpc/jrpc.c:110-124 | Exactly which objects are taken for which request |
| `JsonRpc.UnpackResultExactly` | librpc/jrpc/jrpc.c:126-155 | Exactly which objects are taken for which result |
| `JsonRpc.UnpackErrorExactly` | librpc/jrpc/jrpc.c:126-150 | Exactly which objects are taken for which error |
| `JsonRpc.UnpackInvalidExactly` | librpc/jrpc/jrpc.c:112-145 | With which code any other object is refused |
| `JsonRpc.ServerAnswers` | librpc/jrpc/jrpc.c:182-231 | One response to the same identifier for every request, unless the method succeeds without a result; a notification is answered exactly when it fails |
| `JsonRpc.ReplyTellsOutcome` | librpc/jrpc/jrpc.c:197-230 | What the client unpacks from the reply: method not found, the status of the method in the low byte of the code, or its result |
| `RpcConnection.DoInv` | librpc/jrpc/connection.c:161-199 | Every call and every message keeps: identifiers below the next one, pending and fired disjoint, together those issued |
| `RpcConnection.CallbacksFireOnce` | librpc/jrpc/jrpc.c:233-251 | In every run each callback fires at most once, with its own data and a result received for its identifier; pending is issued minus fired |
| `RpcConnection.RequestIsServed` | librpc/jrpc/jrpc.c:182-231 | What a connection sends for every request, to which identifier, and what it returns; its callbacks and errors stay |
| `RpcConnection.InvalidIsReported` | librpc/jrpc/jrpc.c:280-284 | A malformed request is answered with one error to no identifier, a malformed response with nothing |
| `RpcConnection.ResultIsDelivered` | librpc/jrpc/jrpc.c:233-251 | A result fires the callback of its identifier and no other; one for no pending callback is refused |
| `RpcConnection.ErrorIsHandled` | librpc/jrpc/jrpc.c:253-269 | An error goes to the error handler with all its parts |
| `RpcConnection.CallSends` | librpc/jrpc/jrpc.c:44-68 | For every callback: one message, which unpacks as the request with exactly these parameters, under the next identifier or none |
| `RpcConnection.NotificationIsServed` | librpc/jrpc/jrpc.c:44-68 | A notification reaches the method with exactly its parameters, and is answered exactly when the method is missing or fails |
| `RpcConnection.ErrorKeepsPending` | librpc/jrpc/jrpc.c:253-269 | An error response reaches the error handler and leaves the callback pending |
| `RpcConnection.PendingUntilResult` | librpc/jrpc/jrpc.c:233-269 | In every run a pending callback stays pending exactly until a result for its identifier is received, however many errors come |
| `RpcConnection.CallIsAnswered` | librpc/jrpc/jrpc.c:49-68 | Call, service and delivery of the reply fire the callback of the call, with the result, exactly when the method returns one and the identifier is below 2^32; what the reply does for every other identifier and outcome |
| `RpcConnection.WrongCallbackFires` | librpc/jrpc/jrpc.c:114-118 | For an identifier of 2^32 or more the reply fires another callback exactly if one is pending under the low 32 bits |
| `RpcConnection.Connection.constructor` | librpc/jrpc/connection.c:100-120 | A new connection, first identifier 1, empty table |
| `RpcConnection.Connection.RegisterCallback` | librpc/jrpc/connection.c:161-183 | Returns the next identifier and makes the callback pending under it |
| `RpcConnection.Connection.InsertEntry` | librpc/jrpc/connection.c:172-178 | The entry is in the table under the current identifier, which was free |
| `RpcConnection.Connection.FindCallback` | librpc/jrpc/connection.c:185-199 | Finds the callback of the identifier and removes it, and nothing else |
| `RpcConnection.Connection.JrpcCall` | librpc/jrpc/jrpc.c:44-68 | The new connection state of a call or notification |
| `RpcConnection.Connection.SendCall` | librpc/jrpc/jrpc.c:61-67 | The message is sent, and nothing else changes |
| `RpcConnection.Connection.JrpcProcess` | librpc/jrpc/jrpc.c:271-296 | The new connection state and the return code for every whole message |
| `RpcConnection.Connection.ProcessResult` | librpc/jrpc/jrpc.c:233-251 | Fires the pending callback, or reports an invalid identifier |
| `Marshal.MarshalRoundTrip` | librpc/jrpc/include/libjrpc/marshall.h:140-366 | For every well-formed schema and every value of its C struct, unmarshalling what was marshalled gives the value back if and only if integers are in the range of the macro type, enums are listed and no string is NULL |
| `Marshal.KindRoundTrip` | librpc/jrpc/include/libjrpc/marshall.h:153-184 | The same for one field of each kind |
| `Marshal.ArrayRoundTrip` | librpc/jrpc/marshall.c:33-127 | The same for an array of struct pointers |
| `Marshal.StructRoundTrip` | librpc/jrpc/include/libjrpc/marshall.h:140-193 | The same for a struct |
| `Marshal.FieldsRoundTrip` | librpc/jrpc/include/libjrpc/marshall.h:283-326 | Each field reads back its own member, and a union reads the tag that was read before it |
| `Marshal.EnumReturns` | librpc/jrpc/include/libjrpc/marshall.h:124-135 | A listed enum value is marshalled to its name and comes back; any other is refused with the error of an invalid value |
| `Marshal.EnumNameRefused` | librpc/jrpc/include/libjrpc/marshall.h:262-271 | Exactly the names that are not listed are refused with the error of an invalid string |
| `MarshalWire.ConvertExactly` | librpc/jrpc/include/libjrpc/marshall.h:153-165 | A conversion to a C type keeps the integer modulo its size |
| `MarshalWire.SimpleSent` | librpc/jrpc/include/libjrpc/marshall.h:153-184 | What is sent for a number and for a string |
| `MarshalWire.EnumSent` | librpc/jrpc/include/libjrpc/marshall.h:124-135 | An enum value is sent as its name, any other is refused |
| `MarshalWire.UnionSent` | librpc/jrpc/include/libjrpc/marshall.h:186-233 | A union is sent as an object with the member of its tag |
| `MarshalWire.ArraySent` | librpc/jrpc/marshall.c:33-61 | An array is sent element by element, up to the first error |
| `MarshalWire.StructSent` | librpc/jrpc/include/libjrpc/marshall.h:140-193 | A struct is sent as the object with one member for each field, but for NULL strings; else the first error |
| `MarshalWire.PointerSent` | librpc/jrpc/include/libjrpc/marshall.h:140-193 | A NULL struct is null both ways |
| `MarshalWire.TypeRefused` | librpc/jrpc/marshall.c:63-89 | Every kind refuses a member of another JSON type |
| `MarshalWire.SimpleAccepted` | librpc/jrpc/include/libjrpc/marshall.h:283-305 | What is read from a number, a string, a name and null |
| `MarshalWire.UnionAccepted` | librpc/jrpc/include/libjrpc/marshall.h:306-366 | A union takes the member of its tag, which must be there and be an object |
| `MarshalWire.ArrayAccepted` | librpc/jrpc/marshall.c:91-127 | An array is taken element by element, up to the first error |
| `MarshalWire.StructAccepted` | librpc/jrpc/include/libjrpc/marshall.h:283-366 | A struct is read field by field from the members of their names; the first that is missing or refused gives the error |
| `Marshal.JrpcMarshalArray` | librpc/jrpc/marshall.c:33-61 | The loop produces the specified array, or the first error |
| `Marshal.JrpcUnmarshalArray` | librpc/jrpc/marshall.c:91-127 | The loop produces the specified structs, or the first error |
| `RpcDefs.SchemasWellFormed` | librpc/include/rpc/rpcdefs.h:46-173 | The schemas that cross the connection are instances of the round trip |
| `RpcDefs.EventWellFormed` | librpc/include/rpc/rpcdefs.h:142-156 | The event schema is one: its union is tagged by an earlier enum field, and each listed event type has its case |
| `RpcDefs.ScanIdNarrowed` | librpc/include/rpc/rpcdefs.h:95-126 | Every struct with a scan_id comes back exactly when it fits in 32 bits and the other fields survive |
| `RpcDefs.ScanIdTruncated` | librpc/include/rpc/rpcdefs.h:95-126 | So it is for the four events of a scan |
| `FileStatus.Cmp` | libcore/status.c:33-56 | The comparison is the order of the ranks, and its assertion fails exactly when the first status is outside the six and differs from the second |
| `FileStatus.CmpIsOrder` | libcore/status.c:33-56 | The order of the six statuses, listed, and where the others are |
| `ScanDecision.VerdictOnEveryInput` | libcore/scanctx.c:134-177 | The outcome for every list of module answers: the maximum, unless an authoritative status, a failing seek or a status outside the six comes first, and then what each of these leads to |
| `ScanDecision.VerdictIsMaximum` | libcore/scanctx.c:159-173 | The verdict is the maximum unless both authoritative statuses occur |
| `ScanDecision.CalledMeaning` | libcore/scanctx.c:139-146 | Exactly the modules in status OK are called, in their order |
| `ScanDecision.ChangeMeaning` | libcore/report.c:54-67 | A change sets the status; a name or text that is not given stays, and a text replaced is freed |
| `ScanDecision.OrderIndependent` | libcore/scanctx.c:139-174 | The verdict is the same for every order of the modules if and only if WHITE_LISTED and MALWARE do not both occur |
| `ScanDecision.ReportOfScan` | libcore/report.c:54-67 | The report has the module and the status of the first call with the highest status among the answers that take effect, and every text is freed once or owned |
| `ScanDecision.VerdictIsReported` | libcore/scanctx.c:150-176 | The verdict is the reported status exactly unless a failing seek is reached and the highest answer before it is not an internal error |
| `ScanDecision.TextOfNamedModule` | libcore/report.c:58-66 | The text is that of the module named exactly when it gave one, or no module that raised the status before did |
| `ScanDecision.TakenIsApplied` | libcore/scanctx.c:139-174 | How many calls take effect, told from the answers |
| `ScanDecision.TextsFreedOnce` | libcore/report.c:46-67 | Every text given by a module that was called is freed exactly once |
| `ScanDecision.TextOfAnotherModule` | libcore/report.c:58-66 | A scan whose report carries the text of a module other than the one it names |
| `ScanDecision.Report.constructor` | libcore/report.c:34-44 | A new report |
| `ScanDecision.Report.ReportChange` | libcore/report.c:54-67 | The new report and the text freed |
| `ScanDecision.Report.ReportDestroy` | libcore/report.c:46-52 | Frees the text owned |
| `ScanDecision.ScanApplyModules` | libcore/scanctx.c:134-177 | The loop computes the specified outcome, report and freed texts |
| `ScanConf.SupportingIsFilter` | libcore/scanconf.c:147-164 | The applicable modules are the configured ones that support the type or the wildcard, each as often as configured |
| `ScanConf.StrPrefixIsWildcard` | libcore/scanconf.c:92-101 | A white-listed directory covers exactly the paths below some directory that differs at most in the last character, the empty name included |
| `ScanConf.StrPrefixExact` | libcore/scanconf.c:92-101 | The test accepts the paths below the directory, and those below one that differs just in the last character |
| `ScanConf.WhiteListExact` | libcore/scanconf.c:103-114 | The white list is wrong about a path exactly when it is below none of the directories and below one that differs from some directory just in the last character |
| `ScanConf.OtherDirectoryWhiteListed` | libcore/scanconf.c:92-101 | A path below another directory that is taken for white-listed |
| `ScanConf.StringPrefix` | libcore/scanconf.c:92-101 | The loop over both strings |
| `ScanConf.MimeTypeContains` | libcore/scanconf.c:135-145 | The type or the wildcard is in the array |
| `ScanConf.ScanConf.constructor` | libcore/scanconf.c:48-62 | An empty configuration |
| `ScanConf.ScanConf.IsWhiteListed` | libcore/scanconf.c:103-114 | Some white-listed directory covers the path |
| `ScanConf.ScanConf.WhiteListDirectory` | libcore/scanconf.c:85-90 | Appends a directory |
| `ScanConf.ScanConf.AddMimeType` | libcore/scanconf.c:116-121 | Appends a type; the cache stays |
| `ScanConf.ScanConf.AddModule` | libcore/scanconf.c:123-133 | Appends a module; the cache stays |
| `ScanConf.ScanConf.BuildModuleArray` | libcore/scanconf.c:147-164 | The supporting modules in order, or none |
| `ScanConf.ScanConf.GetApplicableModules` | libcore/scanconf.c:166-182 | The answer and the new cache, which remembers none too |
| `ScanConf.LookupIsFirstFilter` | libcore/scanconf.c:166-182 | After every run a lookup gives what the direct filter gave at the first lookup of that type |
| `ScanConf.LookupMeaning` | libcore/scanconf.c:147-182 | After every run, told from the operations before the first lookup: NULL exactly if no mime type or no module fits, else all the modules that fit, in the order in which they were added |
| `ScanConf.CacheIsTransparent` | libcore/scanconf.c:166-182 | If nothing is added after the first lookup, every lookup is the direct filter |
| `ScanConf.StaleAfterAdding` | libcore/scanconf.c:166-182 | A module added after the first lookup of a type is not seen |
| `ScanContext.Fill` | libcore/scanctx.c:52-129 | The file is to be scanned exactly when it opens, is not white-listed, has a type and some module applies; exactly otherwise a status is reported; and which descriptor the context holds |
| `ScanContext.FillMeaning` | libcore/scanctx.c:52-129 | What the context holds and what is reported, in every case |
| `ScanContext.FileOutcomeMeaning` | libcore/ondemand.c:316-343 | The status of a file that is not given to the modules; a file is announced exactly if its path is known and it is malware or suspicious |
| `ScanContext.AskedMeaning` | libcore/scanctx.c:134-177 | The status of any other file is that of the first answer of the highest rank; the program stops exactly if two answers cannot be compared |
| `ScanContext.ScanContext.Get` | libcore/scanctx.c:52-129 | The whole new context, report and cache |
| `ScanContext.ScanContext.Close` | libcore/scanctx.c:202-211 | Closes the descriptor once |
| `ScanContext.ScanFile` | libcore/ondemand.c:316-343 | Status and announcement of one file, its descriptor closed once, each module text freed once |
| `EventSource.EventSource.constructor` | libcore/event.c:176-183 | No listener |
| `EventSource.EventSource.AddCb` | libcore/event.c:198-208 | The listener is put in front |
| `EventSource.EventSource.RemoveCb` | libcore/event.c:210-225 | Removes every entry equal to the listener and no other, in place |
| `EventSource.EventSource.Unlink` | libcore/event.c:214-221 | The pointer that led to the entry skips it |
| `EventSource.EventSource.FireEvent` | libcore/event.c:235-242 | Calls exactly the listeners whose mask has the type, the latest first |
| `EventSource.OthersIsRemoval` | libcore/event.c:210-225 | Removal keeps every other listener as often as it was added |
| `EventSource.OthersExactly` | libcore/event.c:210-225 | Removal keeps exactly the other listeners, in their order |
| `EventSource.ReachedExactly` | libcore/event.c:235-242 | An event reaches exactly the listeners whose mask has a bit in common with its type, in the order of the list |
| `EventSource.AddThenRemove` | libcore/event.c:198-225 | Adding and removing a listener gives the list back exactly if it was not in it |
| `EventSource.RemovedIsNotReached` | libcore/event.c:210-242 | After removal an event reaches the same listeners in the same order, without the removed one |
| `DirWalk.Visitor.DirMap` | libcore/arch/linux/os/dir.c:64-136 | The calls made and the value returned, for every tree; an unreadable subdirectory ends its parent |
| `DirWalk.CountVisitsAll` | libcore/ondemand.c:413-422 | Counting visits every reachable plain file once, in order |
| `DirWalk.CallsOfEntries` | libcore/arch/linux/os/dir.c:82-130 | The calls for a directory are those of each entry in turn, up to the first subdirectory that cannot be opened and whose callback is not 0 |
| `DirWalk.UnreadableCalls` | libcore/arch/linux/os/dir.c:69-80 | A directory that cannot be opened is one call with the error |
| `DirWalk.ReadableCalls` | libcore/arch/linux/os/dir.c:82-136 | A directory that can be opened gives 0 |
| `DirWalk.ScanVisits` | libcore/ondemand.c:374-405 | The files scanned are a subsequence of those counted, and all of them exactly when no file follows an unreadable subdirectory |
| `DirWalk.ScanEqualsCount` | libcore/ondemand.c:374-449 | If every directory is readable, scanning and counting visit the same files |
| `DirWalk.ReadableIsComplete` | libcore/arch/linux/os/dir.c:115-120 | Readable directories hide nothing |
| `OnDemand.StepInv` | libcore/ondemand.c:137-243 | Every step of every thread keeps: counters are the numbers of files past each point, detection events are exactly the files announced |
| `OnDemand.RunInv` | libcore/ondemand.c:137-243 | Every interleaving keeps it |
| `OnDemand.AlwaysConsistent` | libcore/ondemand.c:137-243 | At every moment malware plus suspicious is at most scanned, also in progress events whose counters are read one by one; progress is within 0..100; no file is announced twice; the divisor is not 0 |
| `OnDemand.TotalsAtCompletion` | libcore/ondemand.c:279-295 | The completed event is the last one, its totals are the numbers of files per status, and each bad file has exactly one detection event |
| `OnDemand.NothingAfterCompleted` | libcore/ondemand.c:507-521 | Nothing is sent and no counter changes after it |
| `OnDemand.AtMostMaxThreads` | libcore/ondemand.c:407-411 | In every interleaving at most four files are in flight, and they are taken in the order in which they were handed over |
| `OnDemand.NotStuck` | libcore/ondemand.c:374-405 | Until completion some thread can take a step |
| `OnDemand.EveryScanCompletes` | libcore/ondemand.c:467-522 | Every run is finite, with a bound, and one that cannot go on has completed |
| `OnDemandProgress.ProgressNeverGoesBack` | libcore/ondemand.c:220-243 | Without a pool the progress events of every run never go back |
| `OnDemandProgress.ProgressGoesBackExactly` | libcore/ondemand.c:220-243 | For every configuration: some run sends progress that goes back if and only if a pool scans a directory that is counted, and the last file shows more progress than the first |
| `OnDemandProgress.GoesBack` | libcore/ondemand.c:220-243 | Such a run, with two threads: one measures the progress of the first file and is overtaken by the other, which scans the rest |
| `OnDemandProgress.RunBounded` | libcore/ondemand.c:220-243 | In every run all progress is between what the first and what the last file show |
| `OnDemandProgress.ScanOfDirectory` | libcore/ondemand.c:424-505 | A completed scan of a directory has scanned at most the files counted, and all of them exactly when none is hidden and none was skipped for want of a path |
| `OnDemandReports.StepReports` | libcore/ondemand.c:137-243 | Each step of the scan of a file: what is announced, counted, measured and sent |
| `OnDemandReports.PercentIsShown` | libcore/ondemand.c:230-233 | The progress is the greatest percentage, at most 100, that is not above the part scanned |
| `OnDemandReports.OneEventEach` | libcore/ondemand.c:180-243 | A completed scan has sent, for every path and progress, exactly as many events as files were measured so and not too soon |
| `OnDemandReports.PlainFileIsShown` | libcore/ondemand.c:488-496 | The completed scan of a plain file has shown 100 percent once, and nothing else |
| `OnDemandReports.PoolSizeExactly` | libcore/ondemand.c:407-411 | A pool scans as many files at once as there are, up to four and never more |
| `OnDemandScan.ReportMeaning` | libcore/ondemand.c:180-243 | When update_progress sends, and what |
| `OnDemandScan.OnDemandScan.constructor` | libcore/ondemand.c:76-114 | The initial state |
| `OnDemandScan.OnDemandScan.FireDetectionEvent` | libcore/ondemand.c:331-333 | One step of the protocol |
| `OnDemandScan.OnDemandScan.CountScanned` | libcore/ondemand.c:139 | One step of the protocol |
| `OnDemandScan.OnDemandScan.CountStatus` | libcore/ondemand.c:141-150 | One step of the protocol |
| `OnDemandScan.OnDemandScan.FireProgressEvent` | libcore/ondemand.c:201-218 | The event carries the progress given and the counters |
| `OnDemandScan.OnDemandScan.ReadCounters` | libcore/ondemand.c:208-211 | The two counters are read by one step each |
| `OnDemandScan.OnDemandScan.SendProgress` | libcore/ondemand.c:238-242 | The event sent is remembered |
| `OnDemandScan.OnDemandScan.UpdateProgress` | libcore/ondemand.c:220-243 | Sends the capped percentage exactly when it must be sent |
| `OnDemandScan.OnDemandScan.ScanFile` | libcore/ondemand.c:316-343 | The whole new state: detection event, counters, progress event |
| `OnDemandScan.OnDemandScan.AnnounceAndCount` | libcore/ondemand.c:331-336 | The detection event, if any, and the three counters |
| `OnDemandScan.OnDemandScan.UpdateCounters` | libcore/ondemand.c:137-151 | The three counters |
| `OnDemandScan.OnDemandScan.SendIfDue` | libcore/ondemand.c:238-242 | Sends and remembers the progress exactly when it is due |
| `OnDemandScan.OnDemandScan.ScanEntry` | libcore/ondemand.c:374-405 | Hands the next file over and scans it: the whole new state |
| `OnDemandScan.OnDemandScan.OnDemandRun` | libcore/ondemand.c:467-522 | The whole sequential scan: its last event has the totals, each bad file was announced once, progress never went back |

## Left out

- String-keyed and pointer-keyed hash tables differ only in the hash and equality functions; the table is proved for every hash function on non-NULL keys that are compared by identity, so string keys and `key_free_cb` are not modelled.
- Allocation failure, logging, debug output and locale: character classes are those of the C locale.
- Unsigned wrap-around of sizes and identifiers, and overflow of counters; identifiers are truncated where the code unpacks or casts them.
- `ConfStore.Atoi`: a decimal that does not fit in a long is taken as glibc takes it, saturated and cut to 32 bits; the C standard leaves it undefined.
- The configuration's `a6o_conf_set_*` and `a6o_conf_get_*` accessors, and the constant result of `a6o_conf_load_file`: they add only easy members.
- Queue operations, the table operations of a connection, and answer plus close of a descriptor are each one atomic step; the locks and the system calls themselves are not modelled. `connection_find_callback` takes no lock, so a connection is used by one thread at a time.
- fanotify, inotify and mount monitoring: the events are inputs. Notification-only mode of the monitor, and the process identifier of an event beyond being its own or not.
- Stream framing, sockets and buffers: a connection receives whole messages. Methods are functions from parameters to a return code and a result, and the mapper is a map.
- JSON reals and the validity of UTF-8 in strings.
- Macro kinds that the schemas in use do not have: struct fields, struct-pointer fields, union strings, union ints.
- `PermissionLiveness.EveryEventIsAnswered`: speaks of runs in which no thread has a step left but to wait, which `PermissionLiveness.ThreadsFinish` bounds; that each thread is scheduled, and that modules return, is not modelled.
- The reads of `must_send_progress_event`, and the two writes after a progress event, are one step each; every other access to a shared counter of the scan is a step of its own.
- `OnDemandScan.OnDemandScan.OnDemandRun`: the scan without a pool, and the counting thread stores its result between two files; scans with a pool, and every other moment, are covered by the runs of `OnDemand`, not in place.
- The pool of an on-demand scan is GLib's: at most as many files in flight as it has threads, taken in the order they were pushed. What a thread does between taking a file and announcing it, and between its last write and taking the next file, is no step.
- Cancellation of a scan, which the code does not implement, and `process_error`, whose body is disabled.
- `Percent` is integer division; in the range of an int the quotient of doubles truncates to the same number.
- `DirWalk.Visitor.DirMap`: failure of `asprintf` and links that `realpath` resolves outside the tree.
- `ScanDecision.ScanApplyModules`: a NULL report, which no caller passes; what the modules do.
- Path and mime type strings of a scan context, which are copied and freed with it.
- Both quarantine modules, the command-line tools and all code for Windows.
