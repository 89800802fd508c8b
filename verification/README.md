# Verified model of a browser's core algorithms

This project models, in Dafny, the parts of a from-scratch browser where loops, state and arithmetic
meet a simple specification, and proves what those parts promise. Each module follows one source file
or one component of it. Code that works step by step is a class or a method, proved against a function
of the old state; the promises are then proved about those functions, over all inputs or over every run.

| files | what they model |
|---|---|
| `iso_boxes`, `iso_bmff`, `iso_bmff_timing`, `iso_bmff_trun`, `iso_bmff_headers`, `iso_bmff_printer` | the fragmented MP4 parser (`src/iso_bmff.rs`), its grammar, its timestamps, its sample tables and remaining fields, and the serializer of its fixture module; ISO/IEC 14496-12, sections 4.2 and 8.8.4 to 8.8.12 |
| `idb_key`, `idb_store`, `idb_store_laws`, `idb_generator`, `idb_answers`, `idb_engine`, `idb_engine_laws` | the IndexedDB key order, object store and engine with snapshot rollback (`src/indexeddb.rs`) |
| `ipc`, `processes`, `ipc_protocol`, `process_laws` | the message channel, the logical process table, crash recovery, and all of them as one protocol over a network that drops, duplicates and reorders (`src/ipc.rs`, `src/child_process.rs`, `src/crash_recovery.rs`) |
| `css_matching`, `css_siblings`, `css_structure`, `css_cascade`, `css_cascade_laws`, `css_custom_properties`, `css_var`, `css_var_scan` | selector matching, structural pseudo-classes, the cascade and `var()` (`src/css_parser.rs`, sibling facts from `src/dynamic_render.rs`) |
| `layout_overlap`, `layout_laws` | the sorted overlap sweep (`src/compatibility_diagnostics.rs`) |
| `image_cache`, `image_cache_laws` | the LRU image cache (`src/image_loader.rs`) |
| `dom_walk` | the stack walk and the recursive search for an element (`src/dom.rs`) |
| `wave`, `pcm`, `frame_queue`, `audio_laws` | WAVE demuxing, PCM decoding and the bounded frame queue (`src/media_core.rs`) |
| `media_element`, `media_element_rules`, `media_element_laws` | the audio/video element and its event log (`src/html_media.rs`) |
| `line_wrap`, `line_wrap_laws` | line breaking (`src/layout.rs`) |
| `bookmarks`, `bookmarks_manager` | bookmark tree edits, import and id allocation (`src/bookmarks.rs`) |
| `wrappers`, `machine_ints`, `bytes`, `division`, `map_sums`, `text` | shared: results, fixed-width integers, byte strings, division facts, sums over maps, strings |

## Where the code differs from what one would expect

These are results of the proofs. The code is modelled as it is; each has a lemma with a concrete input or
run, and where a promise fails, a lemma that says exactly when it holds.

- **A stale transaction can overwrite a recreated database.** A database deleted and opened anew starts at
  epoch 0 again, so aborting a transaction on the old one restores the old snapshot once the new one has made
  the same number of schema changes (`IdbEngine.StaleAbortResurrects`, `IdbEngine.RollbackAfterRecreation`).
  The comment at `src/indexeddb.rs:873` says a reopened database has a bumped epoch; the code does not do that.
- **NaN keys are stored twice.** `==` and `cmp` disagree on NaN, so a lookup never finds such a key and a second
  write breaks the strict order (`IdbStoreLaws.NanKeyIsStoredTwice`); the vector stays sorted exactly for writes
  that are not repeated NaN keys (`IdbStoreLaws.WriteKeepsOrder`).
- **The greedy selector walk misses matches.** For every list of child and descendant combinators in which, right to
  left, a child combinator follows a descendant one there are compounds and a document for which it does
  (`CssMatching.OtherShapesFail`); for the other lists it never does (`CssMatching.GreedyIsComplete`). The shortest
  case is `a > b c` (`CssMatching.MatchIsMissed`).
- **Two sibling combinators in a row are misread.** With one sibling combinator, directly before the subject, the walk
  decides the meaning (`CssSiblings.OneSiblingIsDecided`); with two it tests both compounds against the subject's own
  siblings, so it misses `a + b + c` in `a b c` and takes `a ~ b ~ c` in `b a c` (`CssSiblings.TwoAdjacentAreMissed`,
  `CssSiblings.TwoGeneralAreConfused`).
- **`inherit` does not override.** A winning `inherit`, or `unset` on an inherited property, assigns nothing. So the
  property keeps its starting value if and only if nothing outranked assigns it, or the best outranked declaration
  assigns that very value (`CssCascadeLaws.InheritIsExact`); and the starting value is the parent's for the copied
  properties only, so on any other property `inherit` yields the default even when nothing is outranked
  (`CssCascadeLaws.StartingValue`, `CssCascadeLaws.InheritGivesTheParentValue`). An example is
  `color: inherit` over `color: red` (`CssCascadeLaws.InheritStaysRed`).
- **Order of appearance is decided by `rule index * 1000 + declaration number`.** Among equals the later declaration
  wins if and only if these numbers follow appearance wherever declarations tie (`CssCascadeLaws.AppearanceDecidesTies`,
  `CssCascadeLaws.SpacingDecidesAlikeRules`). They do not for a rule of 1002 declarations before a nested block, where
  numbering starts at 1 again (`CssCascadeLaws.EarlierRuleCanWin`).
- **A full table of custom properties takes no new value,** not even for a property it holds. A custom property ends with
  its last definition, in rank order, in front of which the names inherited or defined number less than 256
  (`CssCustomProperties.LastWithRoomStays`). So the winner's value, where it can be told from the others, shows if and
  only if the names before the winner do (`CssCustomProperties.CustomPropertyPicksTheWinner`); with 256 inherited names
  a lone declaration wins and loses (`CssCustomProperties.WinnerLosesToFullTable`).
- **Layer numbers** keep their meaning for 32-bit values except the last two (`CssCascade.LayerLimitIsExact`,
  `CssCascade.LastLayersTie`).
- **`eval_nth` casts the index to 32 signed bits** and is exact for indices below 2^31 only
  (`CssStructure.NthIsExactUpTo31Bits`, `CssStructure.NthPastTheLimit`).
- **An unclosed `var(` repeats the text before it** (`CssVar.UnclosedTextIsRepeated`); by how many characters, and so
  when not at all, is `CssVar.ResolutionIsSubstitution`.
- **A decoded stream that is ticked while playing at its very end becomes unplayable for good,** for instance after a
  seek to the end (`MediaElementLaws.SeekToEndStalls`, `MediaElementLaws.DecodedReadiness`,
  `MediaElementLaws.StalledForGood`).
- **A full metadata table drops the entry just added** if and only if every other entry without a decoded image has
  been accessed; with room, and only then, the entry surely stays (`ImageLoader.NewcomerIsDropped`,
  and `ImageLoader.FullTableDropsNewcomer` for such a table).
- **Bookmark ids stay unique unless the 64-bit counter runs out,** by wrapping after an addition or by an import that
  holds the largest id (`BookmarksManagement.AddKeepsInv`, `BookmarksManagement.ImportKeepsInv`; edits that end
  with an id used twice are `BookmarksManagement.CounterWraps` and `BookmarksManagement.LargestIdIsImported`). The addition is
  modelled as it behaves without overflow checks; with them it would panic at that point.

## Model

| member | source | states |
|---|---|---|
| IsoBoxes.ParseBoxes | src/iso_bmff.rs:440-476 | the parsing loop returns what the recursive reading of the input says, every error included |
| IsoBoxes.ParserIsGrammar | src/iso_bmff.rs:440-476 | the parser succeeds with a list of boxes if and only if the input is exactly those boxes' wire forms (32-bit, 64-bit or open size) end to end, within the box budget |
| IsoBoxes.ParseUndoesPrint | src/iso_bmff.rs:541-547 | parsing undoes printing for every list of boxes that fits the 32-bit size field |
| IsoBmff.CollectTracks | src/iso_bmff.rs:58-89 | the loop over `trak` boxes collects each one's track, in order, or the first error, within the track budget |
| IsoBmff.ParseInitSegment | src/iso_bmff.rs:58-89 | the whole initialization-segment result, every error included |
| IsoBmff.ParseTrun | src/iso_bmff.rs:341-409 | reads the optional fields the flag bits announce, with the fragment's defaults for the others |
| IsoBmff.ParseRuns | src/iso_bmff.rs:237-285 | the runs of one track fragment, each starting where the one before ends, against the cumulative sample budget |
| IsoBmff.ParseMovieFragment | src/iso_bmff.rs:237-285 | the runs of every track fragment of a `moof` |
| IsoBmff.EmitRun | src/iso_bmff.rs:124-168 | one run's samples cut from the `mdat`, or the first error |
| IsoBmff.EmitRuns | src/iso_bmff.rs:124-168 | all runs' samples in file order, each run reading on where the one before stopped |
| IsoBmff.ParseMediaSegment | src/iso_bmff.rs:91-169 | the whole media-segment result, every error included |
| IsoBmffTiming.InitSegmentTracks | src/iso_bmff.rs:58-89 | an accepted initialization segment yields its tracks once each, in strictly increasing order of non-zero ids, at most 32, with usable timescales |
| IsoBmffTiming.SegmentConservesPayload | src/iso_bmff.rs:124-168 | the samples of an accepted segment concatenate to exactly the `mdat` payload, none is empty, and their number is within budget |
| IsoBmffTiming.SegmentTimestampsNeverDrift | src/iso_bmff.rs:124-285 | the samples split into the track fragments, and in each the decode times are within one microsecond below the exact time and strictly increase, by the duration or one more, across all runs; each sample has its fragment's track, the presentation time its row's signed offset gives, truncated toward zero, its row's size, and is a key frame exactly when bit 16 of the row's flags is clear |
| IsoBmffTiming.ScaledIsTruncated | src/iso_bmff.rs:488-494 | scaling to microseconds drops the fraction, toward zero for negative times |
| IsoBmffTrun.TableRoundTrip | src/iso_bmff.rs:341-409 | for every version and every 24 flag bits a printed sample table is read back as its rows, or refused for their number alone |
| IsoBmffTrun.TableIsPrinted | src/iso_bmff.rs:341-409 | and every accepted sample table is the printed form of the rows read from it, with anything behind it |
| IsoBmffHeaders.InitKindsAreNamed | src/iso_bmff.rs:58-235 | the boxes of an initialization segment are looked for under their four-character names |
| IsoBmffHeaders.MediaKindsAreNamed | src/iso_bmff.rs:91-285 | and those of a media segment |
| IsoBmffHeaders.HandlersAreNamed | src/iso_bmff.rs:429-438 | sound and video handlers by name |
| IsoBmffHeaders.VideoCodecsAreNamed | src/iso_bmff.rs:209-235 | AVC and HEVC by their two names each |
| IsoBmffHeaders.OtherCodecsAreNamed | src/iso_bmff.rs:209-235 | VP8, VP9 and AV1 by name |
| IsoBmffHeaders.AudioCodecsAreNamed | src/iso_bmff.rs:209-235 | AAC and Opus by name |
| IsoBmffHeaders.OtherCodesAreUnknown | src/iso_bmff.rs:209-235 | every other code is unknown |
| IsoBmffHeaders.ChildIsFirst | src/iso_bmff.rs:171-207 | a child is the first box of its kind, or missing |
| IsoBmffHeaders.TracksAreTheTraks | src/iso_bmff.rs:58-89 | the tracks are those of all `trak` boxes, each read on its own, in order, and at most 32 |
| IsoBmffHeaders.RunsAreTheTruns | src/iso_bmff.rs:237-285 | the runs are those of all `trun` boxes, each starting where those before it end, within the sample and time budgets |
| IsoBmffHeaders.GroupsAreTheTrafs | src/iso_bmff.rs:237-285 | the groups are those of all `traf` boxes, in order |
| IsoBmffHeaders.TrafIsReadByField | src/iso_bmff.rs:237-285 | a track fragment is read by its first `tfhd` and `tfdt` and all its `trun` boxes, or refused |
| IsoBmffHeaders.FieldByVersion | src/iso_bmff.rs:411-427 | track id and timescale are the four bytes behind 64-bit times in version 1 and 32-bit times otherwise |
| IsoBmffHeaders.TimescalesTaken | src/iso_bmff.rs:418-427 | timescales from 1 to ten million are taken |
| IsoBmffHeaders.BaseTimeByVersion | src/iso_bmff.rs:330-339 | the base time has 64 bits in version 1 and 32 otherwise |
| IsoBmffHeaders.TfhdReadsBack | src/iso_bmff.rs:287-328 | for every version and every 24 flag bits a printed track fragment header is read back, with zero for every default it leaves out |
| IsoBmffPrinter.InitRoundTrip | src/iso_bmff.rs:560-596 | a printed initialization segment is read back as exactly its one track, for every track id, timescale, handler and codec the parser accepts |
| IsoBmffPrinter.MediaRoundTrip | src/iso_bmff.rs:598-620 | a printed media segment yields one sample a payload with its bytes and scaled decode time if and only if it fits the budgets, and is rejected otherwise |
| IdbKey.KeyOrderIsTotal | src/indexeddb.rs:41-97 | the order on arbitrarily nested keys is reflexive, antisymmetric, transitive and total |
| IdbKey.OrderIsDeclared | src/indexeddb.rs:41-97 | a key comes before another exactly by kind (binary, number, date, text, array), then by value with NaN lowest, or by the first place where bytes or items differ |
| IdbKey.EqualityAgreesWithoutNan | src/indexeddb.rs:24-97 | `==`, `cmp` and structural equality agree on keys without NaN, and `==` fails on every key that holds one |
| IdbKey.KeyBudget | src/indexeddb.rs:437-463 | a key passes validation if and only if its depth, element counts and bytes are within the limits |
| IdbStore.ObjectStore.PutRecord | src/indexeddb.rs:219-268 | the new store and the answer of `put`, every refusal included |
| IdbStore.ObjectStore.AddRecord | src/indexeddb.rs:270-282 | the new store and the answer of `add` |
| IdbStore.ObjectStore.DeleteRecord | src/indexeddb.rs:284-291 | the new store and whether a record was removed |
| IdbStore.ObjectStore.ValidateIndexes | src/indexeddb.rs:414-434 | refuses exactly when another record shares a key of some unique index |
| IdbStore.ObjectStore.AddIndex | src/indexeddb.rs:310-334 | the new index table, or the refusal with the store unchanged |
| IdbStoreLaws.WriteKeepsOrder | src/indexeddb.rs:219-268 | a write keeps the records strictly sorted if and only if its key is NaN-free or not yet stored |
| IdbStoreLaws.NanKeyIsStoredTwice | src/indexeddb.rs:219-268 | a concrete NaN key that two writes store twice |
| IdbStoreLaws.WriteIsMapUpdate | src/indexeddb.rs:219-268 | a write under a NaN-free key is a map update: that key gets the value, every other keeps its own |
| IdbStoreLaws.DeleteIsMapRemoval | src/indexeddb.rs:284-291 | a deletion is a map removal and succeeds exactly for NaN-free stored keys |
| IdbStoreLaws.GetReadsMap | src/indexeddb.rs:215-217 | a lookup reads that map |
| IdbStoreLaws.AcceptedWriteDisjoint | src/indexeddb.rs:414-434 | after an accepted write the index keys of distinct records are disjoint, for every unique index |
| IdbStoreLaws.ScanDecides | src/indexeddb.rs:310-334 | the scan for a unique index succeeds if and only if every record has keys for it, none of them repeated within a record or across records |
| IdbStoreLaws.CreatedIndexDisjoint | src/indexeddb.rs:310-334 | so a unique index that is created starts with disjoint keys |
| IdbStoreLaws.PutKeeps | src/indexeddb.rs:219-268 | `put` keeps order, budgets and unique indexes, leaves the records on refusal, and updates the map on success |
| IdbStoreLaws.AddKeeps | src/indexeddb.rs:270-282 | `add` keeps the same and only ever writes a key not stored before |
| IdbStoreLaws.RunKeeps | src/indexeddb.rs:215-338 | every run of put, add, delete, clear and index calls keeps the invariant and stands for the map its calls and answers describe |
| IdbAnswers.PutIsAcceptedExactly | src/indexeddb.rs:219-268 | `put` succeeds if and only if value, key, store and record budgets are met and no unique index key belongs to another record, told by the map the store stands for |
| IdbAnswers.AddIsAcceptedExactly | src/indexeddb.rs:270-282 | `add` succeeds if and only if `put` would and the key is not stored |
| IdbGenerator.CounterCounts | src/indexeddb.rs:219-298 | over every run the generator stands at its first number plus the calls that took one, whatever else is called |
| IdbGenerator.KeylessAnswers | src/indexeddb.rs:219-282 | a write without a key answers the number the generator stood at |
| IdbGenerator.GeneratedKeysRise | src/indexeddb.rs:219-282 | generated keys rise from call to call, so none is handed out twice |
| IdbGenerator.TwoKeylessPuts | src/indexeddb.rs:219-268 | two writes without a key to a new store leave both records, under 1 and 2 |
| IdbEngine.IndexedDbEngine.Open | src/indexeddb.rs:600-667 | the new engine and the transaction `open_db` returns, with its snapshot and epoch |
| IdbEngine.IndexedDbEngine.CommitTransaction | src/indexeddb.rs:687-707 | the new engine: checked budgets, and the guarded rollback when they fail |
| IdbEngine.IndexedDbEngine.AbortTransaction | src/indexeddb.rs:709-716 | the new engine after the guarded rollback |
| IdbEngine.EpochCountsChanges | src/indexeddb.rs:528-555 | over every interleaving in which a database is not deleted its epoch is the starting one bumped once for each of its schema changes, and by nothing else |
| IdbEngine.BumpedIsModulo | src/indexeddb.rs:528-555 | bumping is counting modulo 2^64 |
| IdbEngine.EpochNeverDecreases | src/indexeddb.rs:528-555 | short of 2^64 changes the epoch never decreases, and rises by exactly one a schema change |
| IdbEngine.RollbackSparesSchemaChanges | src/indexeddb.rs:669-716 | rolling back restores exactly the opening state if no schema change (or a multiple of 2^64) was made since, and otherwise changes nothing |
| IdbEngine.RollbackAfterRecreation | src/indexeddb.rs:669-724 | after deletion and recreation a stale rollback overwrites the new database if and only if its schema changes have caught up with the old epoch |
| IdbEngine.RollbackAfterDeletion | src/indexeddb.rs:669-724 | and while the database has not been created again a rollback changes nothing |
| IdbEngine.StaleAbortResurrects | src/indexeddb.rs:863-893 | a concrete run in which a stale abort brings the deleted database back |
| IdbEngineLaws.OpeningFollowsVersions | src/indexeddb.rs:600-667 | when opening is refused, which version and stores the database then has, what its transaction may do and holds, and that no other database changes |
| IdbEngineLaws.CreatingAddsAnEmptyStore | src/indexeddb.rs:528-555 | a store is created within the budget under a new name, and starts empty with its first number |
| IdbEngineLaws.DeletingTakesOneStore | src/indexeddb.rs:528-555 | deleting takes out that store only |
| IdbEngineLaws.CommitKeepsBudgets | src/indexeddb.rs:687-707 | a commit succeeds if and only if it was not aborted and the origin is within its budgets |
| IdbEngineLaws.AbortTouchesOneDatabase | src/indexeddb.rs:709-716 | an abort never touches another database |
| IdbEngineLaws.DeletingTakesOneDatabase | src/indexeddb.rs:718-724 | deleting a database takes out that one only |
| Ipc.IpcChannel.SendCommand | src/ipc.rs:75-103 | the new channel, the message sent or the refusal |
| Ipc.IpcChannel.DeliverIncoming | src/ipc.rs:105-139 | accepts a message for this receiver and generation with a newer sequence number and room, and otherwise changes nothing |
| Processes.ChildProcessManager.Watchdog | src/child_process.rs:287-317 | exactly the exited processes become crashed and exactly the overdue ones unresponsive, and each is reported once |
| Processes.ChildProcessManager.SpawnProcess | src/child_process.rs:229-259 | a new process under the next pid and generation, the others untouched |
| Processes.ChildProcessManager.TerminateProcess | src/child_process.rs:319-332 | removes exactly that process |
| Processes.CrashRecoveryEngine.RecoverProcess | src/crash_recovery.rs:54-89 | the new table, tabs and count, or the refusal |
| ProcessLaws.WatchdogFindsTheSilent | src/child_process.rs:287-317 | a pass reports exactly the exited children and the running processes silent for longer than the timeout; the former are crashed and closed, the latter unresponsive, everything else unchanged |
| ProcessLaws.ClockTellsTime | src/child_process.rs:283-285 | in every run the clock is the time that has passed, capped at 64 bits |
| ProcessLaws.HeartbeatIsLastHeard | src/child_process.rs:229-281 | in every run a process carries the time of its last heartbeat, or of its start |
| ProcessLaws.HeardInTimeIsNeverReported | src/child_process.rs:287-317 | a running process heard of within the timeout before every pass stays running and is never reported |
| ProcessLaws.SilentIsReported | src/child_process.rs:274-317 | one silent for longer is reported by the next pass and unresponsive until its next heartbeat |
| ProcessLaws.IncarnationsAreNumbered | src/child_process.rs:229-259 | in every run pids and generations are handed out in order, so short of 2^64 starts no two processes share either |
| ProcessLaws.SpawnStarts | src/child_process.rs:229-259 | a new process runs with an open, empty channel of its own numbers and has been heard of now |
| ProcessLaws.CommandsAreQueued | src/ipc.rs:75-103 | a command is queued under the next number within both limits, a refused one uses its number up, a closed channel keeps everything |
| ProcessLaws.OnlyTheLivingAreSent | src/child_process.rs:261-272 | commands to a missing, crashed or terminated process are refused and change nothing |
| ProcessLaws.TabIsRegistered | src/crash_recovery.rs:29-40 | a registered tab shows its address and belongs to its process, the others stay |
| IpcProtocol.RunKeepsInv | src/ipc.rs:75-153 | every run of sends, deliveries, drops, crashes, spawns and recoveries keeps the protocol invariant |
| IpcProtocol.AcceptedIsSubsequenceOfSent | src/ipc.rs:75-153 | what an incarnation accepts is, in every run, a subsequence of what was sent to it: each message at most once and in order |
| IpcProtocol.AcceptsExactlyItsOwn | src/ipc.rs:105-139 | a process accepts a message of the network if and only if it was sent to that incarnation, it has not crashed, has room, and has accepted nothing as new; so none for an old generation reaches its replacement |
| IpcProtocol.CrashedMeansClosed | src/child_process.rs:287-317 | in every run a process is crashed exactly when its channel is closed with empty queues |
| IpcProtocol.RecoveryReplaces | src/crash_recovery.rs:54-89 | recovery puts a running process of the same role under an unused pid in place of the crashed one and moves exactly its tabs |
| CssMatching.MatchesContext | src/css_parser.rs:695-811 | the right-to-left loop with its ancestor cursor decides what the recursive greedy walk decides |
| CssMatching.GreedyIsSound | src/css_parser.rs:695-811 | a match implies an assignment of ancestors that satisfies every combinator, for every child/descendant chain |
| CssMatching.GreedyIsComplete | src/css_parser.rs:695-811 | for chains in which, right to left, no child combinator follows a descendant one, the walk matches if and only if such an assignment exists |
| CssMatching.OtherShapesFail | src/css_parser.rs:695-811 | for every other list of child and descendant combinators there are compounds and a document that the chain means but the walk rejects |
| CssMatching.MatchIsMissed | src/css_parser.rs:695-811 | the walk rejects `a > b c` in the document `a > b > b > c` |
| CssSiblings.OneSiblingIsDecided | src/css_parser.rs:695-811 | for chains with one sibling combinator, directly before the subject, the walk matches if and only if such a sibling and such ancestors exist |
| CssSiblings.TwoAdjacentAreMissed | src/css_parser.rs:771-789 | the walk rejects `a + b + c` in `a b c` |
| CssSiblings.TwoGeneralAreConfused | src/css_parser.rs:790-806 | the walk accepts `a ~ b ~ c` in `b a c` |
| CssStructure.EvalNthIsNth | src/css_parser.rs:444-456 | `eval_nth` holds exactly when some n >= 0 has a*n+b equal to the index as cast |
| CssStructure.NthIsExactUpTo31Bits | src/css_parser.rs:444-456 | it decides An+B of the index itself if and only if the index is below 2^31 |
| CssStructure.NthPastTheLimit | src/css_parser.rs:444-456 | the child at index 2^31 matches a negative position |
| CssStructure.CountTypes | src/dynamic_render.rs:515-518 | the table holds each tag's number of occurrences |
| CssStructure.SiblingFacts | src/dynamic_render.rs:519-558 | the one-pass loop gathers every child's position, counts and preceding siblings as declared |
| CssStructure.PseudoClassesMeanTheirDefinitions | src/css_parser.rs:374-404 | on those facts all structural pseudo-classes hold exactly by their definitions in section 6.6.5 of Selectors Level 3 |
| CssCascade.ImportantReversesLayers | src/css_parser.rs:3943-3975 | normal declarations rank in layer order with unlayered ones highest, and `!important` reverses exactly that order |
| CssCascade.LayerLimitIsExact | src/css_parser.rs:3962-3972 | layers numbered up to a limit, and unlayered declarations, all rank in the right order if and only if the limit is below the last two 32-bit values |
| CssCascade.LastLayersTie | src/css_parser.rs:3962-3972 | the last two 32-bit layer numbers tie with unlayered declarations |
| CssCascade.BestIsHighest | src/css_parser.rs:3864-3873 | a grouped rule counts its highest matching specificity, and none if nothing matches |
| CssCascade.BestSpecificity | src/css_parser.rs:3864-3873 | the loop over a rule's selectors finds it |
| CssCascade.CollectMatches | src/css_parser.rs:3861-3903 | the list of matched declarations, rules first, inline ones last, with their ranks' parts |
| CssCascadeLaws.SortRanks | src/css_parser.rs:3905-3923 | sorting orders the declarations by rank and is a permutation |
| CssCascadeLaws.RankIsCascadeOrder | src/css_parser.rs:3943-3975 | the rank tuples order declarations exactly by importance, origin (reversed when important), inline over rule, layer (reversed when important), ids, classes, tags and number |
| CssCascadeLaws.ImportantShows | src/css_parser.rs:3905-3941 | where an important declaration assigns a longhand no normal declaration's value shows |
| CssCascadeLaws.InlineOutranksRules | src/css_parser.rs:3886-3903 | a style attribute outranks every author rule of its importance, and later declarations in it come last |
| CssCascade.ComputeStyle | src/css_parser.rs:3861-3941 | collect, sort, settle custom properties, apply the rest: the computed style |
| CssCascadeLaws.CascadePicksTheWinner | src/css_parser.rs:3905-3941 | each longhand ends with the value of the declaration of greatest rank that assigns it, the later in the list among equals, or keeps its old value when none does |
| CssCascadeLaws.SomeoneWins | src/css_parser.rs:3905-3941 | whenever a declaration assigns a longhand there is such a winner |
| CssCascadeLaws.DeclarationsAssign | src/css_parser.rs:1986-2012 | what a declaration assigns: by its keyword first, `unset` being `inherit` or `initial` by property, then by what its references come to, else by its own text |
| CssCascadeLaws.CustomsAssignNothing | src/css_parser.rs:1971-1985 | a custom property assigns no longhand |
| CssCascadeLaws.InheritIsExact | src/css_parser.rs:1964-2030 | for every list of declarations, under a winning `inherit` a property keeps its starting value if and only if none assigns it or the best outranked one assigns that value |
| CssCascadeLaws.StartingValue | src/css_parser.rs:3805-3830 | the starting value is what the tag sets, else the parent's for the copied properties, else the default |
| CssCascadeLaws.TextPropertiesAreCopied | src/css_parser.rs:3805-3822 | the twelve text properties come from the parent unless the tag sets them, and no other does |
| CssCascadeLaws.InheritGivesTheParentValue | src/css_parser.rs:3805-3941 | so a winning `inherit` gives the parent's value exactly when the best outranked declaration assigns it, or nothing is outranked and the starting value is the parent's |
| CssCascadeLaws.InheritKeepsTheOutrankedValue | src/css_parser.rs:1964-2030 | one outranked declaration under `inherit`, whose value stays |
| CssCascadeLaws.InheritStaysRed | src/css_parser.rs:1964-2030 | `color: inherit` over `color: red` leaves the element red |
| CssCascadeLaws.AppearanceDecidesTies | src/css_parser.rs:3875-3884 | for every list of rules, among equals the later declaration never ranks lower if and only if the index arithmetic numbers tied declarations in order of appearance |
| CssCascadeLaws.SpacingDecidesAlikeRules | src/css_parser.rs:3875-3884 | numbers in order of appearance throughout always suffice, and are necessary when all rules match alike |
| CssCascadeLaws.EarlierRuleCanWin | src/css_parser.rs:3875-3884 | a concrete style sheet, numbered as the parser does, in which the earlier of two equal rules wins |
| CssCustomProperties.FullTableIsFinal | src/css_parser.rs:1977-1990 | once 256 custom properties are held no declaration changes any of them |
| CssCustomProperties.LastDefinitionStays | src/css_parser.rs:1971-1991 | a custom property ends with the value of its last definition before the table is full, or keeps its inherited one |
| CssCustomProperties.LookedAtCounts | src/css_parser.rs:1977-1990 | the pass gets to a declaration if and only if the names held at the start and declared before it number less than 256 |
| CssCustomProperties.PlaceStands | src/css_parser.rs:3905-3923 | the stable sort puts in front of a declaration exactly those that rank below it, or tie and stand earlier |
| CssCustomProperties.RoomDecides | src/css_parser.rs:3905-3941 | so a count over the unsorted declarations says whether the pass gets to one of them |
| CssCustomProperties.LastWithRoomStays | src/css_parser.rs:3925-3941 | a custom property ends with the value of its last definition in rank order that has room, and keeps its inherited value when none has |
| CssCustomProperties.SomeoneWinsWithRoom | src/css_parser.rs:3925-3941 | whenever a definition has room there is such a last one |
| CssCustomProperties.CustomPropertyPicksTheWinner | src/css_parser.rs:3925-3941 | the winning definition decides if there is room for it, and, when no other definition nor the inherited value is the same, only if there is |
| CssCustomProperties.WinnerLosesToFullTable | src/css_parser.rs:1977-1990 | a concrete table of 256 inherited names against which a winning declaration changes nothing |
| CssVar.FindVarClose | src/css_parser.rs:2636-2651 | the first closing parenthesis not matched within the text |
| CssVar.SplitFirstComma | src/css_parser.rs:2621-2634 | the first comma outside parentheses |
| CssVar.ResolveVarRecursive | src/css_parser.rs:2552-2619 | terminates for every property map, cyclic or not, computes the recursive resolution, and leaves the visited set as it found it on every path |
| CssVar.ResolveVarValue | src/css_parser.rs:2544-2550 | nothing for a value without references, else the resolution from an empty visited set |
| CssVar.ResolutionIsSubstitution | src/css_parser.rs:2552-2619 | on acyclic properties within the caps, resolution fails when plain substitution fails and otherwise gives its text, longer by exactly the text repeated before unclosed references, and equal to it if and only if there is none |
| CssVar.TidyResolutionIsSubstitution | src/css_parser.rs:2552-2619 | so it equals plain substitution whenever no value or property leaves a reference unclosed after some text |
| CssVar.FallbackIsTidy | src/css_parser.rs:2576-2579 | a fallback never holds an unclosed reference, so only values and properties themselves need looking at |
| CssVar.UnclosedIsRepeated | src/css_parser.rs:2569-2574 | for every value whose first reference is unclosed, whatever stands before it comes out twice, and the value is unchanged only if that is nothing |
| CssVar.UnclosedTextIsRepeated | src/css_parser.rs:2571-2574 | a concrete value whose text before an unclosed reference comes out twice |
| CssVar.CycleTakesFallback | src/css_parser.rs:2584-2600 | a reference into a cycle takes its fallback, or fails without one, whatever the cycle's length, wherever in the values its references stand, and even if they have fallbacks that fail themselves |
| CssVarScan.MeansIsScan | src/css_parser.rs:2565-2583 | the scan gives exactly the parts the string is made of: the text before the first `var(`, its balanced body split at the first comma outside parentheses, and the rest; nothing if there is no `var(`, unclosed if no balanced body |
| CssVarScan.CloseIsFound | src/css_parser.rs:2636-2651 | the closing parenthesis found is the one behind the first balanced text |
| CssVarScan.CommaIsFound | src/css_parser.rs:2621-2634 | the comma found is the first one outside parentheses |
| CssVarScan.PrintedResolves | src/css_parser.rs:2552-2619 | for every list of plain texts and references, with or without fallbacks, the printed value resolves to the texts with what stands for each reference between them, or fails exactly when nothing does or the length cap is passed |
| CssVarScan.OtherNamesTakeFallback | src/css_parser.rs:2582-2586 | a reference to a name that does not start with two hyphens takes its fallback, or fails without one |
| CssVarScan.DepthIsSixteen | src/css_parser.rs:2552-2562 | a chain of references resolves if and only if it ends within sixteen levels |
| Text.TrimStrips | src/css_parser.rs:2576-2579 | trimming takes all white space off both ends and nothing else |
| LayoutOverlap.CollectTextRects | src/compatibility_diagnostics.rs:257-273 | collects the text leaves in document order, up to the budget |
| LayoutOverlap.EvaluateLayoutOverlap | src/compatibility_diagnostics.rs:281-327 | the sorted sweep with early exit gives the pair count and score of testing every unordered pair of the unsorted rectangles |
| LayoutOverlap.SortKeepsPairs | src/compatibility_diagnostics.rs:284 | sorting changes no sum over unordered pairs, for every symmetric measure |
| LayoutOverlap.PairsAreCounted | src/compatibility_diagnostics.rs:294-318 | the count is the number of index pairs that collide |
| LayoutOverlap.ScoreIsAShare | src/compatibility_diagnostics.rs:320-326 | the score lies between 0 and 1 and is 0 exactly when no pair collides |
| LayoutLaws.LeavesAreListed | src/compatibility_diagnostics.rs:257-273 | the rectangles are those of all leaves with visible text and an area, in document order |
| LayoutLaws.CollisionIsSharedArea | src/compatibility_diagnostics.rs:303-316 | two rectangles collide if and only if what they have in common is wider and higher than five units and more than half the smaller; that area is counted |
| LayoutLaws.SharedOrApart | src/compatibility_diagnostics.rs:303-316 | any two rectangles either share a rectangle or do not collide |
| LayoutLaws.ScoreIsTheShare | src/compatibility_diagnostics.rs:320-326 | the score times the total area is the colliding area, or the total if that is less |
| ImageLoader.NeverStuck | src/image_loader.rs:303-332 | while images are decoded one of them is stamped, so eviction always finds a victim |
| ImageLoader.ImageCache.EvictForSpace | src/image_loader.rs:303-312 | evicts only least recently used images, until the bytes fit or none is left, and no more than that takes |
| ImageLoader.ImageCache.EvictForCount | src/image_loader.rs:315-323 | evicts exactly as many least recently used images as are counted above the limit |
| ImageLoader.ImageCache.PruneMetadata | src/image_loader.rs:188-208 | drops exactly the overflow of coldest entries without a decoded image, and stamps without an entry |
| ImageLoader.ImageCache.InsertDecoded | src/image_loader.rs:134-168 | the whole new cache: what was evicted, stored and pruned; an image above the capacity is left alone in the cache |
| ImageLoader.ImageCache.LoadImage | src/image_loader.rs:250-300 | the whole new cache and answer for a hit, a failed fetch and a fetched image |
| ImageLoader.ImageCache.EvictStale | src/image_loader.rs:350-366 | evicts exactly the images not used for longer than the given age, and counts them |
| ImageLoader.ImageCache.SetCapacity | src/image_loader.rs:401-419 | a smaller capacity evicts least recently used images, and no more than needed |
| ImageLoader.ImageCache.Add | src/image_loader.rs:178-181 | adds metadata and prunes |
| ImageLoader.MostRecentGoesLast | src/image_loader.rs:303-332 | the most recently used image is evicted only when nothing else is left |
| ImageLoader.NewcomerIsDropped | src/image_loader.rs:178-208 | an added entry is surely pruned at once if and only if it is new, the table is full and all other metadata has been accessed; it surely stays if and only if it was known or there is room |
| ImageLoader.FullTableDropsNewcomer | src/image_loader.rs:178-208 | a concrete full table that drops every new entry at once |
| ImageCacheLaws.EvictionMarks | src/image_loader.rs:335-348 | evicted images are gone and marked as not loaded, all others keep pixels, stamp and entry |
| ImageCacheLaws.StoringShows | src/image_loader.rs:134-168 | an image just stored is there, stamped and marked with its width and height, whatever is pruned; no other image changes |
| ImageCacheLaws.PruningDropsTheColdest | src/image_loader.rs:188-208 | pruning drops only entries without an image, as many as there are above a thousand, those never used first and then those used longest ago |
| ImageCacheLaws.StaleAreTooOld | src/image_loader.rs:350-366 | exactly the images last used before the age began go |
| DomWalk.GetElement | src/dom.rs:23-37 | the stack walk ends and returns the same element, by position, as the recursive search, for every tree and test |
| DomWalk.FindIsFirst | src/dom.rs:5-21 | the recursive search returns the first element in document order that passes the test and is not nested too deep |
| Wave.ParseWavePcm | src/media_core.rs:437-491 | the chunk loop returns what the recursive reading says, every error included |
| Wave.ParseUndoesPrint | src/media_core.rs:437-491 | for every printed list of chunks, in any order and of even or odd length, the parser finds the last format and data chunk or the first error |
| Wave.PcmFileRoundTrip | src/media_core.rs:803-832 | a file of one format and one data chunk is read back exactly |
| Wave.WavePcmDemuxer.PushBytes | src/media_core.rs:365-389 | the new demuxer and answer of one push |
| Wave.CutsDoNotMatter | src/media_core.rs:365-389 | however a stream is cut, pushing the pieces comes to the same answer as pushing it whole |
| Wave.CutFileIsDemuxed | src/media_core.rs:365-389 | a printed file cut anywhere gives back its format and data |
| AudioLaws.FormatIsRead | src/media_core.rs:437-491 | a format chunk is taken if and only if its fields, byte by byte, say 16-bit PCM within range with matching frames, and is then those fields |
| AudioLaws.ChunksCount | src/media_core.rs:437-491 | a `fmt ` chunk is the format and a `data` chunk the data from then on, every other chunk is passed over |
| AudioLaws.FileIsRead | src/media_core.rs:437-491 | a file is taken if and only if its header is right, it is as long as it says, and its chunks give a format and whole frames of data |
| Pcm.PcmBytesToSamples | src/media_core.rs:493-520 | the loop cuts the data into samples of at most 1024 frames |
| Pcm.SamplesConserveData | src/media_core.rs:493-520 | the samples' bytes concatenate to the data chunk |
| Pcm.SamplesAreTimed | src/media_core.rs:493-520 | every sample passes validation, starts on time, and is followed after its duration or one microsecond more |
| Pcm.DecodeSample | src/media_core.rs:412-430 | the decoded frame or the refusal |
| Pcm.AudioSurvives | src/media_core.rs:834-864 | 16-bit words written to a file, cut anywhere, demuxed and decoded come back as the same words in frames of strictly increasing timestamps |
| Pcm.AcceptedDataPlays | src/media_core.rs:365-430 | whatever bytes the demuxer accepts are decoded without failure, in order and completely |
| AudioLaws.FormatsTaken | src/media_core.rs:493-520 | 16-bit PCM of one to eight channels at 8 to 384 kHz is taken |
| AudioLaws.SamplesAreAlike | src/media_core.rs:493-520 | samples are key frames of track 1 presented when decoded, and all but the last hold exactly 1024 frames |
| AudioLaws.WordIsSigned | src/media_core.rs:412-430 | two bytes are a little-endian signed number |
| AudioLaws.DecodingTakes | src/media_core.rs:412-430 | when a sample is decoded, and every field of the frame |
| FrameQueue.BoundedFrameQueue.Push | src/media_core.rs:289-311 | appends within both budgets and in timestamp order, or refuses and changes nothing; the byte counter is the sum of the frames |
| FrameQueue.BoundedFrameQueue.Pop | src/media_core.rs:313-317 | hands out the oldest frame and its bytes |
| FrameQueue.OrderIsNeverRefused | src/media_core.rs:289-311 | a stream in timestamp order is never refused for its order, whatever pops, clears and refusals come between |
| FrameQueue.PlayedFramesAreNeverRefused | src/media_core.rs:289-311 | so the frames of any file the demuxer accepts never are |
| AudioLaws.PushTakesWhatFits | src/media_core.rs:289-311 | a frame is taken if and only if there is room for one more and for its bytes and it is not older than the last |
| AudioLaws.FirstInFirstOut | src/media_core.rs:289-329 | over every run frames come out in the order they went in, each once, and the budgets hold |
| MediaElement.EventQueue.Push | src/html_media.rs:454-459 | the queue holds the latest 512 events since the last drain |
| MediaElement.HtmlMediaElement.SynchronizeSourceState | src/html_media.rs:185-239 | the new state and the events raised, in order |
| MediaElement.HtmlMediaElement.StartPlaying | src/html_media.rs:241-255 | the new state, events and answer of `play` |
| MediaElement.HtmlMediaElement.Seek | src/html_media.rs:264-281 | the new state, events and answer of `seek` |
| MediaElement.HtmlMediaElement.Tick | src/html_media.rs:320-351 | the new state and events of `tick` |
| MediaElement.HtmlMediaElement.AttachMediaSource | src/html_media.rs:128-138 | the new state and events of attaching a media source |
| MediaElement.HtmlMediaElement.AttachDecodedStream | src/html_media.rs:155-175 | the new state and events of attaching a decoded stream |
| MediaElementRules.AheadIsRestOfRange | src/html_media.rs:429-435 | the time buffered ahead is what is left of the first range around the position |
| MediaElementRules.NothingAhead | src/html_media.rs:429-435 | and nothing outside all ranges |
| MediaElementRules.DurationIsKnownOrLatestEnd | src/html_media.rs:185-195 | a source's own duration counts, or else the latest end of its ranges |
| MediaElementRules.ReadinessFollowsBuffer | src/html_media.rs:185-239 | each readiness has its exact stretch of buffered time |
| MediaElementRules.RisesAreAnnounced | src/html_media.rs:185-239 | each threshold passed on the way up is announced once, in order, nothing on the way down |
| MediaElementRules.StartPlays | src/html_media.rs:241-255 | starting plays, from the beginning if the stream had ended, and changes nothing else |
| MediaElementRules.SynchronizingFollowsSource | src/html_media.rs:185-239 | every field and event after following a source, autoplay included |
| MediaElementRules.LoadingStartsOver | src/html_media.rs:140-153 | a new address resets everything but rate, loop and autoplay |
| MediaElementRules.SourceStartsOver | src/html_media.rs:128-138 | so does a media source, which is then followed |
| MediaElementRules.DecodedStartsOver | src/html_media.rs:155-175 | so does a decoded stream, which is complete at once |
| MediaElementRules.SeekLands | src/html_media.rs:264-281 | a seek lands at the time asked for or at the end, no longer ended, everything else kept |
| MediaElementRules.SeekSynchronizes | src/html_media.rs:264-281 | with a source it follows it from there |
| MediaElementRules.TickMovesOn | src/html_media.rs:320-351 | a playing element moves on by elapsed time times rate, and at the end starts over or stops and has ended |
| MediaElementRules.TickWaits | src/html_media.rs:320-332 | without data it waits |
| MediaElementRules.SettingsTake | src/html_media.rs:257-311 | which rates are taken, and what pausing and failing do |
| MediaElementLaws.RunKeepsInv | src/html_media.rs:128-459 | after every run ended or failed implies paused, and a decoded stream's position is within 0 and its duration |
| MediaElementLaws.LogTellsPlayback | src/html_media.rs:128-459 | the full event log of a run determines whether the element is paused, and never raises Play while it plays |
| MediaElementLaws.PlaysAreSeparated | src/html_media.rs:241-262 | between any two Play events of a run there is a Pause, Ended, Error or Emptied |
| MediaElementLaws.DecodedReadiness | src/html_media.rs:320-332 | a decoded stream loses its readiness on exactly those ticks that find it playing at its very end, and never regains it |
| MediaElementLaws.StalledForGood | src/html_media.rs:241-244 | from then on it cannot be started until another resource is loaded |
| MediaElementLaws.SeekToEndStalls | src/html_media.rs:264-351 | three calls that bring it about |
| LineWrap.Wrap | src/layout.rs:341-414 | the loops terminate and produce the lines the recursive description gives |
| LineWrap.LinesAreBounded | src/layout.rs:341-414 | when a text with a word is wrapped, no line is empty or longer than the character limit; a text without one comes back as it is |
| LineWrap.LinesKeepWords | src/layout.rs:341-414 | the words on the lines are the text's words in order; only over-long words and words with a CJK character are cut, into pieces that make them up |
| LineWrap.WrappingConservesText | src/layout.rs:341-414 | wrapping keeps the characters other than white space, in order, for every text and width |
| LineWrapLaws.LinesAreFull | src/layout.rs:341-414 | no line is broken early: the first word or piece of the next line would not have fitted |
| LineWrapLaws.WhichWordsMayBeCut | src/layout.rs:341-414 | words longer than a line and words with an ideograph, no others |
| LineWrapLaws.WidthsAdd | src/layout.rs:174-200 | the width of a text is the sum over its characters |
| LineWrapLaws.WidthOfOne | src/layout.rs:174-200 | and of a character, its share of the font size by class |
| LineWrapLaws.LineHolds | src/layout.rs:341-414 | the character limit is what the width holds, but at least one |
| LineWrapLaws.ShortTextStays | src/layout.rs:341-414 | a text that fits stays one line |
| BookmarksManagement.ImportAcceptsExactly | src/bookmarks.rs:34-45 | a tree is accepted if and only if it is within every budget, well shaped, without repeated ids, and a folder; ids then go on after the largest |
| BookmarksManagement.ValidateJudges | src/bookmarks.rs:129-152 | the recursive validation with its shared set of seen ids decides exactly that, for every subtree, depth and set |
| BookmarksManagement.ItemLimits | src/bookmarks.rs:129-152 | what is asked of each item: depth, lengths, an address exactly without folder, and items only in folders |
| Bookmarks.InsertIntoHangs | src/bookmarks.rs:177-188 | insertion adds the item last under the named folder and changes nothing else, or changes nothing if there is none |
| BookmarksManagement.AddHangsOne | src/bookmarks.rs:47-92 | an addition adds exactly one row with a new id, or none |
| BookmarksManagement.AddKeepsInv | src/bookmarks.rs:47-92 | ids stay unique and below the next one if and only if the counter does not wrap |
| Bookmarks.RemoveFromTakes | src/bookmarks.rs:154-162 | removal takes out the whole subtree of that id and nothing else, or changes nothing if there is none below the node |
| BookmarksManagement.RemoveTakesSubtree | src/bookmarks.rs:118-123 | the same for the manager, which never removes its root |
| Bookmarks.RemoveUrlStrikes | src/bookmarks.rs:164-175 | removal by URL strikes out exactly the bookmarks of that URL and counts them |
| Bookmarks.NoneLeft | src/bookmarks.rs:164-175 | no bookmark of the URL is left, and the count is the number of items the tree lost |
| BookmarksManagement.RemoveUrlTakesBookmarks | src/bookmarks.rs:125-127 | the same for the manager |
| BookmarksManagement.ImportKeepsInv | src/bookmarks.rs:34-45 | an accepted import keeps the id invariant if and only if it does not hold the largest 64-bit id |
| BookmarksManagement.CounterWraps | src/bookmarks.rs:34-92 | an import and two additions after which an id is used twice |
| BookmarksManagement.LargestIdIsImported | src/bookmarks.rs:34-92 | an import of the largest id and one addition after which an id is used twice |
| BookmarksManagement.RunKeepsInv | src/bookmarks.rs:34-188 | every run of edits keeps ids unique and below the next one, while the counter has room; rejected imports do not matter |

## Left out

- Native child processes, files, disk persistence, the network, clocks and foreign media calls: fetched images, process
  exits, elapsed times and clock readings are parameters.
- JSON: an encoded message's length and the index keys of a value are abstract functions.
- `usize` is taken to have 64 bits, and lossy UTF-8 conversion of box kinds and codec names is left out.
- Floating-point rounding: layout, playback rates and seek targets are real numbers; IndexedDB numbers keep their NaN, and
  generated keys stay exact (from 2^53 on their floats would not).
- Values owned by one another in Rust (a bookmark's children, a store's records, a process's channel) are values here;
  the classes are the objects whose methods update their own fields.
- Sibling combinators between ancestors, which the walk tests against the subject's own siblings, and the legacy selector
  form: the matching results are for child and descendant chains, with at most one sibling combinator before the subject.
- The limit of 32 ancestors the callers put on a chain of elements (`src/dynamic_render.rs:509-511`): the matching results
  are about the ancestors the walk is given, of any number.
- Trimming and lower-casing of property names: declarations are taken to carry them already trimmed and in lower case.
- The tables behind a declaration (which properties inherit, what a shorthand sets, what `initial` assigns) are parameters
  of the cascade.
- `calc()`, colours, the property lists, named at-rules, and the style cache, whose fingerprint does not cover ancestors.
- Record writes, and index creations and deletions, made by other transactions since a snapshot: they do not bump the
  epoch, so a rollback may undo them; only store creations, store deletions and version upgrades are claimed to be safe.
- Index queries and cursors of IndexedDB, the encoded-sample queue and the audio clock, volume and mute, bookmark search:
  they would add easy members.
- The accessibility tree, the background worker queue, flex widths and animations are not part of this model.
- The parts of the media source that fill its buffered ranges: the element sees a duration, a list of ranges and whether
  it has ended, which may change between any two calls.
- CssVar.ResolutionIsSubstitution: the depth cap enters as a bound on how deep the references that are looked at nest
  and the length cap as a bound on the final text, because a value above either cap may still resolve through a fallback.
- ImageLoader.ImageCache.LoadImage: does not have the branch for a URL decoded while it was being fetched, because with
  exclusive access to the cache that cannot happen.
- MediaElement.HtmlMediaElement.AttachMediaSource: does not have the failure of opening the source, because `open` is
  only called on a closed source and fails only on one that is not closed (`src/mse.rs:354-361`).
