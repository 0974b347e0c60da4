# Verified models of AgentOS components

AgentOS is an operating system for AI agents. This project models the parts of its repository that
have the most state and the most branching, and proves what they promise, in Dafny 4.11. Check the
whole project with `dafny verify dfyconfig.toml`.

| file | what it models |
|---|---|
| `HashTable.dfy` | the Robin Hood hash table of the documentation search index |
| `EditDistance.dfy` | the three-row edit distance of the search page, with its cut-off |
| `SearchPattern.dfy` | the Horspool substring matcher of the search index |
| `RoaringContainers.dfy`, `RoaringBitmap.dfy` | Roaring bitmaps: membership, union, intersection, cardinality |
| `ConvoRelay.dfy` | the relay that coalesces the streamed text of a conversation |
| `ApiKeyStore.dfy` | the API key store: memory, background writes, database |
| `Feedback.dfy`, `FeedbackParser.dfy` | deduplicating feedback, and reading `[FEEDBACK]` blocks |
| `Harness.dfy` | the turn loop of the scenario tester and its books |
| `DottedKeys.dfy` | reading and setting a configuration entry by dotted key |
| `MarkdownBlocks.dfy`, `MarkdownFences.dfy`, `MarkdownLists.dfy` | the block parser and list renderer of the handbook |
| `MarkdownPatterns.dfy`, `MarkdownContents.dfy` | what the line patterns of the block parser accept, and which block the lines become |
| `FreeNames.dfy` | the search for a free name |
| `Separators.dfy` | splitting a text at a separator, and joining the parts |
| `Bus.dfy` | ownership of the intent bus socket, and matching responses to commands |
| `Basics.dfy`, `Wrappers.dfy` | shared types and facts about sequences and sets |

Where a component is a protocol, one module is the state machine with what holds on every run of it
(`RelayProtocol`, `KeyStoreProtocol`, `SocketProtocol`), and a second one has the imperative code,
each method proved to take exactly the steps of the machine. Where it is an algorithm, one module
says what the result means without the algorithm (`Alignment`, `RobinHood`, `RoaringEntries`,
`Blocks`, `MarkupNesting`, `BlockStructure`), and the loops are proved against that.

Where a result rests on a table or a pattern of the code, such as which frame an event becomes, which
bit of a byte a number is, or which lines are headings, there is a second statement in terms of the
raw bytes, characters, events or requests (`Encodes`, `LinePatterns`, `Tells`, `AsRequested`), and a
proof that the two agree.

## Where the code differs from what one would expect

The models follow the code. Each of the following is proved.

- `HashTable.set` fails when it has to grow past class 30, because `1 << 31` is negative, and the
  class has been raised by then. The arrays survive, but every later `get` finds nothing
  (`HashTables.HashTable.Set`, `HashTables.HashTable.Get`); `HashTables.LargestTableIsFull` has the
  number of keys.
- `RoaringBitmap.contains` extracts the key with a signed shift, so a number from 2^31 on is never
  found, even in a bitmap that stores it (`RoaringBitmaps.RoaringBitmap.Contains`;
  `RoaringBitmaps.HighNumberIsMissed` is an instance).
- Background writes of the key store are independent tasks. A revocation whose task runs before the
  insert of its row is lost at the next start: `KeyStoreProtocol.RevocationCanBeLost` is a run of
  five steps, and `KeyStoreProtocol.EarlyRevocationExactly` says for every run when the overtaking
  does harm: exactly if the insert of a row that it is meant for is still queued, and no other write
  behind that insert kills the row.
- `validate` still accepts a key at the very moment of its expiry, and `purge_dead_keys` already
  removes it then. `AcceptedOnlyIfGranted` and `GrantedIsAccepted` have the two comparisons.
- `revoke` compares nothing but the lookup: any string that starts like a key revokes it
  (`ApiKeyStores.ApiKeyStore.RevokeKey`).
- `render_list` tests for an equal indentation after `close_to`; that test never succeeds, so an
  item that is indented less than the one before opens a list of its own
  (`MarkdownLists.RenderItem`).
- `parse_blocks` loops forever exactly when, at some depth, a line outside code starts with three
  backticks, is no valid fence, and is neither the first line nor a row of a table
  (`FenceConditions.EndlessExactly`, `MarkdownBlocks.Chapter.ParseBlocks`;
  `BlockStructure.StrayBacktickIsEndless` is an instance).
- `send_command` gets its own answer exactly if no response is queued when it starts
  (`BusClients.OwnAnswerExactly`; `BusClients.StaleAnswerIsTaken` is an instance): after a call that
  was given up, every later answer is off by one.
- A kernel starts exactly if nobody serves the file at the socket path, so a second one starts beside
  the first exactly if its file has been removed or replaced from outside
  (`SocketProtocol.BindSucceedsExactlyWhenUnserved`; `SocketProtocol.ReplacementAllowsTwo` is an
  instance, and `SocketProtocol.WithoutReplacementOneOwner` excludes it otherwise).

## Model

| member | source | states |
|---|---|---|
| `RobinHood.ProbeProvesAbsence` | doc/static.files/stringdex-a3946164.js:1 | a probe that meets a free slot, or an entry closer to home than itself, proves that the key is nowhere in the table |
| `RobinHood.PreferredIsBigEndian` | doc/static.files/stringdex-a3946164.js:1 | home is the big-endian number of the last four key bytes, modulo the capacity |
| `RobinHood.OverwriteKeepsPlacement` | doc/static.files/stringdex-a3946164.js:1 | replacing an entry by one at least as far from home keeps every probe sequence of the table unbroken, across the wrap-around |
| `RobinHood.CarryingSwaps` | doc/static.files/stringdex-a3946164.js:1 | displacement loses no entry: the evicted one is in hand, the other is in the table, and the goal of the insertion is unchanged |
| `RobinHood.CarryingSteps` | doc/static.files/stringdex-a3946164.js:1 | one probe of an insertion keeps the displacement invariant and comes closer to a free slot |
| `RobinHood.PlacedInFreeSlot` | doc/static.files/stringdex-a3946164.js:1 | the entry in hand put into a free slot makes the table hold exactly the goal |
| `RobinHood.ReplacedInPlace` | doc/static.files/stringdex-a3946164.js:1 | writing over the slot with the same key makes the table hold exactly the goal |
| `RobinHood.LookupFromSlot` | doc/static.files/stringdex-a3946164.js:1 | from every slot that a probe can have reached, the rest of the lookup finds what the map holds |
| `RobinHood.LookupFinds` | doc/static.files/stringdex-a3946164.js:1 | the probe loop refines map selection, for keys that are present and for keys that are not |
| `RobinHood.SizeCountsSlots` | doc/static.files/stringdex-a3946164.js:1 | the number of distinct keys is the number of used slots, so fewer keys than slots leave a free one |
| `HashTables.CarryingStarts` | doc/static.files/stringdex-a3946164.js:1 | below full load an insertion starts in the invariant and will meet a free slot |
| `HashTables.PrefixGrows` | doc/static.files/stringdex-a3946164.js:1 | while rehashing, the new table holds exactly the part of the old one that has been passed |
| `HashTables.HashTable.constructor` | doc/static.files/stringdex-a3946164.js:1 | a new table holds nothing |
| `HashTables.HashTable.SetNoGrow` | doc/static.files/stringdex-a3946164.js:1 | with a free slot, the loop ends at a free or equal slot and updates the map at one key; the size is the number of keys |
| `HashTables.HashTable.Rehash` | doc/static.files/stringdex-a3946164.js:1 | growing keeps the map, and leaves room |
| `HashTables.HashTable.Set` | doc/static.files/stringdex-a3946164.js:1 | updates the map at one key, going up one class exactly at nine tenths; fails exactly when it has to grow past the largest class, which leaves arrays and size as they were and the table unusable |
| `HashTables.HashTable.Get` | doc/static.files/stringdex-a3946164.js:1 | the last value set for the key, and nothing otherwise; nothing for any key after a failed set |
| `HashTables.LargestTableIsFull` | doc/static.files/stringdex-a3946164.js:1 | the largest table has to grow, and fails, from 966 367 642 keys on |
| `Alignment.NoScriptIsCheaper` | doc/static.files/search-9e2438ea.js:1 | no script of edits and neighbour swaps is cheaper than the recurrence says |
| `Alignment.SomeScriptAttains` | doc/static.files/search-9e2438ea.js:1 | some script costs just as much, for every pair of prefixes |
| `Alignment.OsaIsDistance` | doc/static.files/search-9e2438ea.js:1 | the recurrence is the cost of a cheapest script: the optimal string alignment distance |
| `Alignment.NoDistanceIfEqual` | doc/static.files/search-9e2438ea.js:1 | the distance is 0 if and only if the strings are equal |
| `Alignment.OneEditCostsOne` | doc/static.files/search-9e2438ea.js:1 | a replacement, an insertion, a deletion and a swap of neighbours cost 1 each |
| `Alignment.OsaSymmetric` | doc/static.files/search-9e2438ea.js:1 | the distance is symmetric, so the strings may be swapped |
| `Alignment.LengthGapBound` | doc/static.files/search-9e2438ea.js:1 | the difference of the lengths is a lower bound, so the early return is right |
| `Alignment.SuffixCancels` | doc/static.files/search-9e2438ea.js:1 | a common last character does not change the distance |
| `Alignment.OsaReversed` | doc/static.files/search-9e2438ea.js:1 | reading both strings backwards does not change the distance |
| `Alignment.PrefixCancels` | doc/static.files/search-9e2438ea.js:1 | a common first character does not change the distance, by mirroring scripts |
| `EditDistance.EditDistanceState.Start` | doc/static.files/search-9e2438ea.js:1 | whatever the reused rows held, the first row is that of the empty prefix |
| `EditDistance.EditDistanceState.FillRow` | doc/static.files/search-9e2438ea.js:1 | the current row becomes the next row of the recurrence, from the two rows before it |
| `EditDistance.EditDistanceState.Calculate` | doc/static.files/search-9e2438ea.js:1 | the smaller of the distance and `limit + 1`, for every pair of strings, every limit and every earlier content of the rows |
| `SearchPattern.SkipMissesNothing` | doc/static.files/stringdex-a3946164.js:1 | no occurrence starts between a failed alignment and the one that is tried next |
| `SearchPattern.Uint8ArraySearchPattern.constructor` | doc/static.files/stringdex-a3946164.js:1 | the skip table has for every byte the largest skip that passes no occurrence of it, and at least 1 for a needle that is not empty |
| `SearchPattern.Uint8ArraySearchPattern.Matches` | doc/static.files/stringdex-a3946164.js:1 | ends, and is true exactly when the needle occurs contiguously; the empty needle always does |
| `RoaringContainers.RunContains` | doc/static.files/stringdex-a3946164.js:1 | binary search over runs decides membership |
| `RoaringContainers.ArrayContains` | doc/static.files/stringdex-a3946164.js:1 | binary search over sorted values decides membership |
| `RoaringContainers.BitIsDigit` | doc/static.files/stringdex-a3946164.js:1 | bit `k` of a byte is its binary digit of weight 2^k |
| `RoaringContainers.HasIsEncoded` | doc/static.files/stringdex-a3946164.js:1 | an element of a container is what its raw bytes encode: a 16-bit little-endian item, a start and a length of a run, or the digit of weight 2^(v mod 8) in byte v / 8 |
| `RoaringContainers.ContainerContains` | doc/static.files/stringdex-a3946164.js:1 | membership in a container of any kind, by the raw bytes |
| `RoaringContainers.Values` | doc/static.files/stringdex-a3946164.js:1 | each kind of container yields exactly the elements that its raw bytes encode, in ascending order |
| `RoaringContainers.MergeUnion` | doc/static.files/stringdex-a3946164.js:1 | merging two ascending streams gives the ascending union |
| `RoaringContainers.MergeIntersection` | doc/static.files/stringdex-a3946164.js:1 | and the ascending intersection, though it stops at the end of the shorter one |
| `RoaringContainers.Pack` | doc/static.files/stringdex-a3946164.js:1 | packing ascending values gives a well-formed array container with just these values |
| `RoaringContainers.BitCountCounts` | doc/static.files/stringdex-a3946164.js:1 | the shift-and-mask population count counts the bits of a byte |
| `RoaringContainers.BitsCounted` | doc/static.files/stringdex-a3946164.js:1 | the bits of a bit container add up to the number of its elements |
| `RoaringBitmaps.UnionContainers` | doc/static.files/stringdex-a3946164.js:1 | for every mix of kinds, the union of the elements and their number |
| `RoaringBitmaps.IntersectContainers` | doc/static.files/stringdex-a3946164.js:1 | for every mix of kinds, the intersection of the elements and their number |
| `RoaringEntries.StoresAt` | doc/static.files/stringdex-a3946164.js:1 | in a sorted key list the key alone finds the container |
| `RoaringEntries.UnitingTakesBoth` | doc/static.files/stringdex-a3946164.js:1 | two entries with one key: the result is the union so far, its keys ascend, and its counts are right |
| `RoaringEntries.IntersectionTakesBoth` | doc/static.files/stringdex-a3946164.js:1 | two entries with one key: an entry is added exactly if there are common values |
| `RoaringEntries.IntersectionEnds` | doc/static.files/stringdex-a3946164.js:1 | what is left of one list when the other is finished adds nothing |
| `RoaringEntries.TotalIsSize` | doc/static.files/stringdex-a3946164.js:1 | right counts of the containers add up to the number of numbers in the bitmap |
| `RoaringBitmaps.RoaringBitmap.MakeSingleton` | doc/static.files/stringdex-a3946164.js:1 | a bitmap with one number and nothing else |
| `RoaringBitmaps.RoaringBitmap.MakeEverything` | doc/static.files/stringdex-a3946164.js:1 | a bitmap with all 2^32 numbers |
| `RoaringBitmaps.RoaringBitmap.GetContainerId` | doc/static.files/stringdex-a3946164.js:1 | the position of a key, and -1 exactly if it is absent |
| `RoaringBitmaps.RoaringBitmap.StoredIsEncoded` | doc/static.files/stringdex-a3946164.js:1 | a number is stored if and only if some container has its upper half for key bytes and encodes its lower half |
| `RoaringBitmaps.RoaringBitmap.Contains` | doc/static.files/stringdex-a3946164.js:1 | true exactly for the numbers below 2^31 whose upper half is the key of some container and whose lower half its bytes encode |
| `RoaringBitmaps.HighNumberIsMissed` | doc/static.files/stringdex-a3946164.js:1 | the bitmap of all numbers, asked for 2^31, says no |
| `RoaringBitmaps.RoaringBitmap.Cardinality` | doc/static.files/stringdex-a3946164.js:1 | the number of numbers in the bitmap, when its counts are right |
| `RoaringBitmaps.RoaringBitmap.Union` | doc/static.files/stringdex-a3946164.js:1 | the set union, as a bitmap with ascending keys; right counts stay right |
| `RoaringBitmaps.RoaringBitmap.Intersection` | doc/static.files/stringdex-a3946164.js:1 | the set intersection, as a bitmap with ascending keys; right counts stay right |
| `RelayProtocol.StepMeaning` | crates/agentos-api/src/kernel_impl.rs:6011-6075 | one iteration adds, to what was sent and what is pending, exactly what the relay without coalescing sends |
| `RelayProtocol.RunRefinesUncoalesced` | crates/agentos-api/src/kernel_impl.rs:5980-6079 | at every point of every run, frames sent and text pending mean the same speaker-tagged characters and markers as the input |
| `RelayProtocol.ClosedRunSendsEverything` | crates/agentos-api/src/kernel_impl.rs:6077-6079 | a finished run has sent all of it and holds nothing back |
| `RelayProtocol.ClosedRunTells` | crates/agentos-api/src/kernel_impl.rs:5980-6079 | for every run: start, end, call, return and done frames have, in order, the data of the turn starts, turn ends, tool starts, tool results and completions received, and the text frames say the characters of the chunks, in order and each under its speaker |
| `RelayProtocol.FramesPaidFor` | crates/agentos-api/src/kernel_impl.rs:5971-6075 | every text frame is paid for by a speaker change, a tool or lifecycle event, or a full interval |
| `RelayProtocol.RateBound` | crates/agentos-api/src/kernel_impl.rs:5971-5974 | over a run of length T, at most T/100 ms text frames plus the boundaries plus one |
| `RelayProtocol.HeldIsPending` | crates/agentos-api/src/kernel_impl.rs:5998-6038 | the pending text is the concatenation of the chunks that arrived since the last flush |
| `RelayProtocol.NoTextWaitsLonger` | crates/agentos-api/src/kernel_impl.rs:6011-6023 | up to the deadline of the timer, no pending chunk is older than the interval |
| `RelayProtocol.NothingHeldTooLong` | crates/agentos-api/src/kernel_impl.rs:6019-6038 | after a time-out nothing is pending, and after a chunk only if its test came within 100 ms of the last flush |
| `RelayProtocol.SentTextIsFresh` | crates/agentos-api/src/kernel_impl.rs:6011-6075 | every text frame of every run consists of the chunks held and the one that arrives; after a wake-up by the deadline none of them has waited longer than the interval and the time of that one iteration |
| `RelayProtocol.LastTextIsFresh` | crates/agentos-api/src/kernel_impl.rs:6077-6079 | the same for the text that the last flush sends |
| `ConvoRelay.Relay.Flush` | crates/agentos-api/src/kernel_impl.rs:6000-6009 | sends what is pending, if anything, and always restarts the interval |
| `ConvoRelay.Relay.RelayEvents` | crates/agentos-api/src/kernel_impl.rs:5980-6079 | for every schedule of events and timeouts, the loop does what the state machine does, holds nothing back at the end, and what was sent tells of each kind of event in order |
| `KeyStoreProtocol.DrainingKeepsLive` | crates/agentos-api/src/api_key.rs:218-470 | running a write ahead of those it may overtake changes no unrevoked row of the drained database |
| `KeyStoreProtocol.WriteMirrorsMemory` | crates/agentos-api/src/api_key.rs:180-470 | what an operation queues does to an unrevoked row what the operation did in memory |
| `KeyStoreProtocol.StepKeepsAgreement` | crates/agentos-api/src/api_key.rs:180-635 | every operation, drain and reopen keeps it true that the drained database has memory's unrevoked records |
| `KeyStoreProtocol.StepKeepsAccounts` | crates/agentos-api/src/api_key.rs:180-635 | every step keeps memory in accord with the history of issues and revocations |
| `KeyStoreProtocol.EveryRunKeepsInv` | crates/agentos-api/src/api_key.rs:180-635 | both hold after every run |
| `KeyStoreProtocol.ReopenedStoreAcceptsTheSame` | crates/agentos-api/src/api_key.rs:577-635 | after any drained run, a reopened store accepts the same key strings at any time |
| `KeyStoreProtocol.AcceptedOnlyIfGranted` | crates/agentos-api/src/api_key.rs:260-317 | an accepted key was issued, was revoked by no path, and is not past its expiry |
| `KeyStoreProtocol.GrantedIsAccepted` | crates/agentos-api/src/api_key.rs:260-472 | an issued, unrevoked key is accepted until its expiry, through purges, drains and restarts |
| `KeyStoreProtocol.AcceptedRecordIsAsRequested` | crates/agentos-api/src/api_key.rs:180-635 | after every legal run, the record of an accepted key has the id, name, permissions, expiry and creation time of the one issue of that key |
| `KeyStoreProtocol.WrittenThrough` | crates/agentos-api/src/api_key.rs:180-470 | with tasks in order, the drained database agrees with memory in every field, time of last use included |
| `KeyStoreProtocol.RevocationIsRecorded` | crates/agentos-api/src/api_key.rs:320-431 | each of the three paths revokes the keys that it hits |
| `KeyStoreProtocol.RevokedStaysRevoked` | crates/agentos-api/src/api_key.rs:320-431 | no later step takes a revocation back |
| `KeyStoreProtocol.RevokedNeverAcceptedAgain` | crates/agentos-api/src/api_key.rs:260-431 | a revoked key is rejected for the rest of the run |
| `KeyStoreProtocol.RevokedByAnyPath` | crates/agentos-api/src/api_key.rs:260-431 | after a revocation by the start of the key, by the name or by the id of its record, the key is rejected for the rest of the run |
| `KeyStoreProtocol.RowsAreFresh` | crates/agentos-api/src/api_key.rs:180-250 | with background tasks in any order, a lookup is inserted at most once, and never when its row is in the database |
| `KeyStoreProtocol.FateOfRow` | crates/agentos-api/src/api_key.rs:340-470 | an inserted row lives on, unchanged but for its time of last use, exactly if no later write revokes it or purges it as dead |
| `KeyStoreProtocol.EarlyRevocationExactly` | crates/agentos-api/src/api_key.rs:227-249 | in every run, with background tasks in any order: running a revocation next keeps the final unrevoked rows if and only if no insert of a row that it is meant for is queued before it, or another write behind that insert kills the row |
| `KeyStoreProtocol.RevocationCanBeLost` | crates/agentos-api/src/api_key.rs:180-358 | issue, revoke, the second task first, and a restart is a possible run; at its end the revoked key is accepted |
| `ApiKeyStores.ApiKeyStore.constructor` | crates/agentos-api/src/api_key.rs:180-257 | a new store starts where every run starts |
| `ApiKeyStores.ApiKeyStore.Issue` | crates/agentos-api/src/api_key.rs:180-257 | the returned record has the id, name, permissions and expiry asked for, the hash of the key and the current time; it is stored under characters 5 to 20 of the key, and its insert is queued; the key is accepted until its expiry |
| `ApiKeyStores.ApiKeyStore.Validate` | crates/agentos-api/src/api_key.rs:260-317 | the record under the lookup of the key, unchanged but for its time of last use, exactly if the key is accepted; otherwise nothing changes |
| `ApiKeyStores.ApiKeyStore.RevokeKey` | crates/agentos-api/src/api_key.rs:320-358 | true exactly if the lookup is known; its record, and no other, is then marked, and the key rejected |
| `ApiKeyStores.ApiKeyStore.RevokeByName` | crates/agentos-api/src/api_key.rs:363-397 | marks exactly the records of the name, and queues one write for all of them |
| `ApiKeyStores.ApiKeyStore.RevokeById` | crates/agentos-api/src/api_key.rs:401-431 | marks exactly the record with the id; true exactly if there is one |
| `ApiKeyStores.ApiKeyStore.PurgeDeadKeys` | crates/agentos-api/src/api_key.rs:439-472 | drops exactly the records of the name that are revoked or whose expiry has come, and keeps all others as they are |
| `ApiKeyStores.ApiKeyStore.FinishPurge` | crates/agentos-api/src/api_key.rs:455-471 | deletes exactly the rows of the name that are revoked or whose expiry had come; returns the larger of their number and the records removed before |
| `ApiKeyStores.ApiKeyStore.Open` | crates/agentos-api/src/api_key.rs:577-635 | memory has exactly the unrevoked rows, each as it is stored |
| `WordOverlap.OverlapAbove` | crates/agentos-agent-tester/src/feedback.rs:125-136 | being above a threshold, with the division cleared, and the rule for empty texts |
| `WordOverlap.OverlapTriangle` | crates/agentos-agent-tester/src/feedback.rs:125-136 | two texts that each share more than 4/5 with a third share more than 3/5 with each other |
| `FeedbackDedup.MergeableExactly` | crates/agentos-agent-tester/src/feedback.rs:64-136 | two entries may be merged if and only if they have one category, both have words, and more than 4/5 of the words of either are common |
| `FeedbackDedup.GroupedIsWellGrouped` | crates/agentos-agent-tester/src/feedback.rs:60-77 | the greedy grouping is a partition: every entry merges with its representative and with no earlier one, and representatives keep their order |
| `FeedbackDedup.RepresentativesStayApart` | crates/agentos-agent-tester/src/feedback.rs:60-77 | of any two representatives, in order: another category, no words in one of them, or at most 4/5 of their words in common |
| `FeedbackDedup.CountsAddUp` | crates/agentos-agent-tester/src/feedback.rs:69-75 | the sizes of the groups of any partition add up to the number of entries |
| `FeedbackDedup.GroupCountsAddUp` | crates/agentos-agent-tester/src/feedback.rs:60-88 | the counts of the deduplicated list add up to the number of entries |
| `FeedbackDedup.GroupMembersAreClose` | crates/agentos-agent-tester/src/feedback.rs:57-77 | any two members of a group have one category and share more than 3/5 of their words |
| `FeedbackDedup.LabelledGroup` | crates/agentos-agent-tester/src/feedback.rs:78-88 | a group of one keeps its entry, and a larger one has "(observed n times)" with its size after the text |
| `FeedbackDedup.FeedbackCollector.Merge` | crates/agentos-agent-tester/src/feedback.rs:64-76 | an entry joins the first group that takes it, and opens a new one if there is none |
| `FeedbackDedup.FeedbackCollector.Deduplicate` | crates/agentos-agent-tester/src/feedback.rs:60-88 | one entry for each group: its representative, with "(observed n times)" and the size of the group after the text if that is more than one |
| `Blocks.FindAfter` | crates/agentos-agent-tester/src/feedback.rs:161-163 | a tag that cannot overlap itself is found where it was written and not earlier |
| `Blocks.PrintedIsRead` | crates/agentos-agent-tester/src/feedback.rs:158-185 | scanning a text printed from blocks gives back the bodies, in order |
| `Blocks.EveryTextIsPrinted` | crates/agentos-agent-tester/src/feedback.rs:158-185 | every text is printed from some blocks and a tail without a complete one |
| `FeedbackParser.ParseFeedback` | crates/agentos-agent-tester/src/feedback.rs:158-185 | the scan ends and returns the decodable bodies between `[FEEDBACK]` and `[/FEEDBACK]`, in order; an unclosed block ends it |
| `FeedbackParser.DecodedInOrder` | crates/agentos-agent-tester/src/feedback.rs:168-182 | a body gives its entry at its place, or nothing if it cannot be decoded |
| `FeedbackParser.ReplyRoundTrip` | crates/agentos-agent-tester/src/feedback.rs:158-185 | printing bodies between these two tags and parsing the result gives the decodable bodies |
| `FeedbackParser.EveryReplyIsPrinted` | crates/agentos-agent-tester/src/feedback.rs:158-185 | and every reply is of that form, so that nothing else is ever returned |
| `Harness.RunScenario` | crates/agentos-agent-tester/src/harness.rs:539-720 | a failed permission grant ends the scenario as an error with one entry each; otherwise the turns are played, and outcome, report and collector are told by the turns |
| `Harness.RunTurns` | crates/agentos-agent-tester/src/harness.rs:565-720 | the outcome by how the last turn went; tokens, parsed entries and cost are sums over the turns, tool calls the number of metrics with one; Incomplete means all turns were used and adds the timeout entry |
| `Harness.PlayTurns` | crates/agentos-agent-tester/src/harness.rs:569-698 | stops at the first inference error or met goal and not earlier, with all counters balanced |
| `Harness.PlayedEndsAs` | crates/agentos-agent-tester/src/harness.rs:565-720 | errored exactly if the last turn's inference failed, complete exactly if it met the goal, else incomplete |
| `Harness.FeedbackAddsUp` | crates/agentos-agent-tester/src/harness.rs:573-625 | the collector grows by the parsed entries and one for each failed tool call or inference |
| `Harness.FeedbackExactly` | crates/agentos-agent-tester/src/harness.rs:573-625 | how often each entry is collected: as often as its own turn gave it, and no other turn |
| `Harness.MetricsAddUp` | crates/agentos-agent-tester/src/harness.rs:629-674 | one record for each turn used, in order, with its number, cost and tool result, but for a last turn whose inference failed |
| `DottedKeys.ResolveDottedKey` | crates/agentos-api/src/kernel_impl.rs:585-597 | for the dot-free parts that join to the key: succeeds exactly if they lead somewhere; otherwise names the shortest prefix that does not, joined with dots |
| `DottedKeys.NamesExactly` | crates/agentos-api/src/kernel_impl.rs:589-622 | the parts that a key is split into are the one list of dot-free parts that joins with dots to the key |
| `Separators.SplitOfJoin` | crates/agentos-api/src/kernel_impl.rs:589 | splitting what was joined from separator-free parts gives the parts |
| `Separators.PartsExactly` | docs/build_handbook_html.py:253-255 | a list is what a text is split into if and only if its parts have no separator and join to the text |
| `DottedKeys.SetFailsExactly` | crates/agentos-api/src/kernel_impl.rs:641-652 | a set fails if and only if some proper prefix of the path leads to a non-table, names the first such part, and has changed nothing |
| `DottedKeys.SetThenWalk` | crates/agentos-api/src/kernel_impl.rs:641-652 | after a successful set the path leads to the new value |
| `DottedKeys.SetFrame` | crates/agentos-api/src/kernel_impl.rs:641-652 | a path that neither extends nor prefixes the key's leads where it led before |
| `DottedKeys.Document.EditAt` | crates/agentos-api/src/kernel_impl.rs:641-650 | the loop that walks down, creates missing tables and stops at a non-table makes of the document what the recursive walk says |
| `DottedKeys.Document.SetDottedKey` | crates/agentos-api/src/kernel_impl.rs:616-652 | all of this for the document and the dot-free parts that join to the key, with the value typed as integer, else float, else boolean, else text |
| `DottedKeys.SetThenResolve` | crates/agentos-api/src/kernel_impl.rs:585-652 | for every key joined from dot-free parts: resolving it after it has been set gives the typed value; null for a float that JSON does not have |
| `FreeNames.DecimalDenotes` | docs/build_handbook_html.py:280-285 | a decimal suffix determines its number |
| `FreeNames.DecimalIsPlain` | crates/agentos-api/src/kernel_impl.rs:4185-4194 | a decimal suffix has digits only, and no leading zero |
| `FreeNames.CandidatesDiffer` | docs/build_handbook_html.py:280-285 | different suffixes give different names |
| `FreeNames.NextFree` | crates/agentos-api/src/kernel_impl.rs:4185-4194 | the name itself if it is free, and otherwise the name with a dash and the first suffix that makes it free; at most one try more than there are taken names |
| `MarkdownLists.CloseTo` | docs/build_handbook_html.py:226-229 | closes exactly the lists that are indented at least as far |
| `MarkdownLists.RenderItem` | docs/build_handbook_html.py:231-246 | which lists are open after an item, for deeper, equal and lesser indentation, an `ol` exactly for a numbered item; output and stack stay consistent |
| `MarkdownLists.RenderList` | docs/build_handbook_html.py:222-250 | well-nested, fully closed markup with each item in exactly one element, in input order, and a new list, of the item's kind, for exactly the items not indented as far as the one before |
| `MarkdownLists.ItemsInOrder` | docs/build_handbook_html.py:231-246 | what `RenderList` promises a reader to see has the contents of the items, one by one |
| `MarkdownLists.ExpectedExactly` | docs/build_handbook_html.py:231-246 | each item adds its content, after the start of an `ol` or `ul` by its own kind unless it is indented as the one before |
| `BlockStructure.StuckExactlyAtBadFence` | docs/build_handbook_html.py:258-367 | an iteration makes no progress if and only if the line looks like a fence, is none, and starts no table |
| `LinePatterns.FenceOpenExactly` | docs/build_handbook_html.py:264 | a line opens a fence if and only if it is three or more backticks, space, language characters, space |
| `LinePatterns.FenceCloseExactly` | docs/build_handbook_html.py:269 | a line closes one if and only if it is three or more backticks and space |
| `LinePatterns.HeadingExactly` | docs/build_handbook_html.py:276-278 | a line is a heading of level n with a text if and only if it is n, from 1 to 6, number signs, then space, and the text is the rest without space at its ends |
| `LinePatterns.StripExactly` | docs/build_handbook_html.py:276-278 | stripping leaves the middle of the text that has no space at its ends, with nothing but space around it |
| `LinePatterns.RuleExactly` | docs/build_handbook_html.py:293 | a line is a rule if and only if it starts with `*`, `-` or `_`, has that character three times, and otherwise space |
| `LinePatterns.CalloutExactly` | docs/build_handbook_html.py:298 | a line starts a callout if and only if it is `>`, space, `[!`, a word, `]` and anything |
| `LinePatterns.QuoteExactly` | docs/build_handbook_html.py:315 | a line is quoted if and only if its first character that is not space is `>` |
| `LinePatterns.UnquoteExactly` | docs/build_handbook_html.py:298-323 | a quoted line loses what is up to its marker, and one space after it |
| `LinePatterns.SeparatorExactly` | docs/build_handbook_html.py:325 | what the line under the head of a table looks like, character by character |
| `LinePatterns.ItemExactly` | docs/build_handbook_html.py:335-340 | a line is a list item if and only if it is space, a bullet or digits and `.` or `)`, and space |
| `BlockContents.KindsExactly` | docs/build_handbook_html.py:258-367 | which kind of block starts at a line, by these patterns and their order |
| `BlockContents.ContinuesExactly` | docs/build_handbook_html.py:264-367 | which lines go on with a block of each kind, by these patterns |
| `BlockContents.BlockBecomes` | docs/build_handbook_html.py:258-367 | what the block at a line becomes: its kind, the longest run of lines that go on with it, level and text of a heading, and for a quote or callout the blocks of its lines without their markers |
| `BlockContents.ScanIsBlocks` | docs/build_handbook_html.py:253-369 | a text whose parse ends becomes its blocks one after the other |
| `BlockContents.OneHeading` | docs/build_handbook_html.py:276-291 | a text of one heading line becomes that heading, with its level and text |
| `BlockStructure.OutlineExactly` | docs/build_handbook_html.py:276-323 | a heading adds level and text where it stands, a quote or callout the headings inside, and no other block anything |
| `BlockStructure.InnerIsShorter` | docs/build_handbook_html.py:298-323 | what a quote or callout is parsed again for is shorter than the text, so the recursion ends |
| `FenceConditions.InCodeWithin` | docs/build_handbook_html.py:264-274 | the parser is inside a code block exactly at the lines after an opening fence that is not closed yet: no other block swallows a fence |
| `FenceConditions.StrayStarts` | docs/build_handbook_html.py:264-367 | a line that only looks like a fence starts a block exactly if it is outside code and no row of a table |
| `FenceConditions.NextStart` | docs/build_handbook_html.py:258-367 | the parser goes from the first line of a block to the first line of the next one |
| `FenceConditions.EndlessExactly` | docs/build_handbook_html.py:253-369 | the parser comes to no end if and only if, at some depth, a line outside code looks like a fence, is none, and is neither the first line nor a row of a table |
| `FenceConditions.FittingFencesEnd` | docs/build_handbook_html.py:253-369 | if at every depth the lines with three backticks outside code are fences, the parser ends |
| `BlockStructure.StrayBacktickIsEndless` | docs/build_handbook_html.py:264-367 | it need not: one line with a backtick after the language |
| `MarkdownBlocks.Chapter.AddHeading` | docs/build_handbook_html.py:276-286 | a heading is added with its level and text, and the first free id for its slug; ids stay distinct |
| `MarkdownBlocks.ExtendsTransitive` | docs/build_handbook_html.py:253-369 | headings added at two levels of nesting have ids of their own together |
| `MarkdownBlocks.Chapter.ParseBlocks` | docs/build_handbook_html.py:253-369 | comes to an end exactly on texts without such a line, by that condition on the lines; then the output is the blocks of the text one after the other, and the headings collected are its headings in document order, nested ones included, with distinct ids; a text of one heading line of level n collects its text at level n |
| `MarkdownBlocks.Chapter.HeadingBlockAt` | docs/build_handbook_html.py:276-291 | a heading line adds one entry, with the number of its number signs and the text after them |
| `MarkdownBlocks.Chapter.ParseBlock` | docs/build_handbook_html.py:258-367 | the same for the block at one line, and the line at which the parser goes on |
| `MarkdownBlocks.Chapter.Collect` | docs/build_handbook_html.py:269-365 | collects the lines up to the first that does not continue the block |
| `SocketProtocol.EveryRunHasOwnFiles` | crates/agentos-bus/src/server.rs:16-101 | after every run of binds, drops, crashes and replacements, each server knows its own file and no two share one |
| `SocketProtocol.NobodyElseIsCutOff` | crates/agentos-bus/src/server.rs:27-101 | no bind or drop unlinks a file that another live server is serving |
| `SocketProtocol.DropRemovesOwnFile` | crates/agentos-bus/src/server.rs:27-37 | in every run a drop removes the file exactly if it is the one that the server listens on |
| `SocketProtocol.WithoutReplacementOneOwner` | crates/agentos-bus/src/server.rs:39-101 | without outside replacement, at most one server is live and its file is the one at the path |
| `SocketProtocol.BindSucceedsExactlyWhenUnserved` | crates/agentos-bus/src/server.rs:40-101 | after every run, replacements included, a bind succeeds if and only if nobody serves the file at the path, and makes a second server if and only if one is live as well |
| `SocketProtocol.BindSucceedsExactlyWhenAlone` | crates/agentos-bus/src/server.rs:40-101 | a bind succeeds if and only if no server is live, and changes nothing if it fails |
| `SocketProtocol.ReplacementAllowsTwo` | crates/agentos-bus/src/server.rs:27-101 | a removed file lets a second kernel start, and the first one's drop leaves it alone |
| `BusServers.Host.BindServer` | crates/agentos-bus/src/server.rs:44-101 | which of the errors, by the file and the probe; on success the server listens on the new file, and on failure to secure it the file stays |
| `BusServers.Host.DropServer` | crates/agentos-bus/src/server.rs:27-37 | the server is gone, and the file exactly if it is still the server's own |
| `BusClients.OwnAnswer` | crates/agentos-bus/src/client.rs:42-58 | with only pushes queued, a command gets its own answer and leaves only pushes |
| `BusClients.NoStaleResponse` | crates/agentos-bus/src/client.rs:42-58 | however many commands went before, no response is queued when the next is sent |
| `BusClients.NthAnswer` | crates/agentos-bus/src/client.rs:36-59 | the n-th command gets the n-th answer |
| `BusClients.OwnAnswerExactly` | crates/agentos-bus/src/client.rs:42-46 | a command gets its own answer if and only if no response is queued |
| `BusClients.StaleAnswerIsTaken` | crates/agentos-bus/src/client.rs:42-46 | with the answer to command 0 queued, command 1 gets that one |
| `BusClients.BusClient.SendCommand` | crates/agentos-bus/src/client.rs:36-59 | returns the first response in the stream, and drops all pushes before it; fails exactly if the stream ends before a response |

## Left out

Search index (`stringdex`, `search`):

- `&`, `|` and shifts of the hash table are modelled by arithmetic on bytes; `& mask` by the remainder modulo the capacity, which is a power of two.
- Strings are sequences of Dafny characters where the edit distance reads UTF-16 units; an array that grows by assigning at its length is a sequence.
- `HashTables.HashTable.Set`: a set on a table on which one has failed already is left out.
- A table value of `undefined`, the `entries` generator, and key arguments at an offset of a larger buffer.
- `RoaringBitmap.remove`, `addToArrayAt`, and the constructor from bytes: bitmaps start from `MakeSingleton`, `MakeEverything`, or any well-formed lists.
- `RoaringBitmaps.RoaringBitmap.Union`: the shared bitmaps `everything` and `empty` are parameters, recognised by identity as in the code, because there are no global objects.
- `RoaringBitmaps.RoaringBitmap.Cardinality`: says nothing about a bitmap whose noted counts were wrong to begin with.
- Generators are modelled by the list of all they yield, bitmaps by immutable lists once built; the byte array of a new one is filled in place.
- The Levenshtein automata, SipHash, type unification, query parsing and the page code.

Conversation relay:

- The broadcast channel is a list of frames; that a lagging subscriber can lose frames is not modelled. A frame's JSON is its fields.
- `RelayProtocol.SentTextIsFresh`: bounds the wait when the wake-up comes by the deadline of the timer; that the runtime wakes the task in time is a hypothesis on that one wake-up.

API key store:

- HMAC is an uninterpreted function, without collisions where acceptance is traced back to issuing; random keys and ids are parameters that do not repeat; times are integers where the database compares time stamps as text.
- Keys are strings of single-byte characters: slicing a key inside a multi-byte character, which panics, is not modelled.
- Operations are atomic, and one clock reading serves both the expiry test and the time of last use in `validate`.
- A reopen follows a complete drain, and only updates overtake other writes, except in the lemmas about early revocation; failing writes, a poisoned lock and a store without a database are left out.
- `ApiKeyStores.ApiKeyStore.PurgeDeadKeys`: is the part up to the queued write, and `FinishPurge` the part that waits for it; what other tasks do in between is up to the run.
- `ApiKeyStores.ApiKeyStore.Open`: reads rows as they are; a NULL id, which is made up on loading and not in the table, and time stamps and permissions that cannot be parsed are left out.
- `list`, `get_by_id` and `list_all`.

Feedback and scenarios:

- Splitting a text into lower-cased words, and trimming and decoding the JSON of a block, are function parameters.
- Similarity is a real number; the floating-point quotient of two counts compares with 0.8 in the same way for any count that fits in memory.
- Idempotence of `deduplicate` does not hold, because it writes counts into the texts; `stats` only counts.
- `Harness.RunTurns`: takes the model's replies and tool outcomes as a list of turns; the context window, timings, token split and error texts are left out, and cost is a real number.

Configuration:

- `DottedKeys.Document.EditAt`: keeps the tables on the way down as values and puts each back into the one above, where the code moves a mutable reference down the tree; the tree has no aliasing.
- Number parsing is a pair of function parameters; layout, comments and the text of a document are left out, and arrays, dates and arrays of tables are one opaque kind that no key leads into.
- The name that `connect_channel` starts from: only the search for a free suffix is modelled, with the vault as a set of names.

Handbook generator:

- White space and word characters are those of ASCII; inline markup, code, tables, callout titles and HTML text are left out, and `slugify` is a function parameter.
- `MarkdownLists.RenderList`: takes the items as given; joining the continuation lines of an item and measuring its indentation are left out.

Intent bus:

- `SocketProtocol.BindSucceedsExactlyWhenAlone`: a bind is one step, its probe is decided if there is a file, and the file can be secured; so for `SocketProtocol.BindSucceedsExactlyWhenUnserved`; two binds at once, and a failing unlink or listen, are left out.
- An inode number is not used again while a listener holds it or it is at the path.
- `BusClients.BusClient.SendCommand`: the stream ends after what arrives during the call; other read errors, a failing write and cancelled calls are left out, and a response carries the number of its command only in the model.

Everything else in the repository: HTTP routes and conversions, scheduler, registries, vault, chat store, event bus, drivers and reports.
