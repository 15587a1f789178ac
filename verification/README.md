# Verification of the database engine

A Dafny model of a small C database engine and proofs about it. `dafny verify
dfyconfig.toml` checks everything.

The engine keeps one table in memory, indexed by a B+ tree over integer ids, and writes
every inserted row through to a CSV file. Another table's statement drops that table and
loads its own from disk. SQL text passes a hand-written lexer behind a cache of recently
used statements and a recursive-descent parser. Queries arrive from a pool of worker
threads fed by a bounded queue, and run under a reader-writer lock that a SELECT gives
back and takes again for writing when its table is not loaded.

Main results:

- Any safe run of statements over any tables answers as a naive database does that is a
  map from names to row lists and assigns id max + 1 (`Naive.RunRefines`), and so does
  every interleaving of concurrent queries, in the order of last lock acquisition
  (`ConcurrentEngine.ConcurrentAnswersAreNaive`). Safe is the exact condition, and the
  naive database decides it (`Naive.StatementRefinesExactly`, `Naive.SafeRunsExactly`,
  `Hypotheses.SwitchIsInvisibleExactly`).
- What each answer is, without the engine's own lookup, comparison or schema functions:
  which SELECTs succeed and with which cells (`Acceptance.EngineSelects`,
  `Answers.SelectByNumber`), and which inserts (`Acceptance.InsertSucceedsExactly`).
- A row once inserted is found by its id after any safe run of further statements
  (`Durability.InsertedRowStaysFound`).
- The B+ tree on the heap keeps shape, order, occupancy, parent links and leaf chain
  through cascading splits and refines a map (`BPTreeIndex.BPTree.Insert`,
  `BPTreeOrder`).
- Memory and file agree after an insert exactly when a stated condition on the values
  holds (`WriteThrough.ReloadAfterInsertExactly`).
- Parser and grammar are the same thing (`Grammar.ParserIsExact`), a text is read as a
  statement exactly when it lexes to one of its forms (`SqlText.QueryOfExactly`), a
  statement written out letter by letter is read back (`SqlTexts.SqlRoundTrip`), and the
  statement cache cannot be observed under any interleaving
  (`CacheSessions.CacheIsInvisible`).
- Every interleaving of sessions is serializable, under both lock policies and for any
  statements (`Serializability.AnswersAreSerial`).
- The database lock and the cache lock inside it cannot deadlock, and every query is
  answered after at most fifteen steps (`LockTheorems.NeverStuck`,
  `LockTheorems.RunsAreBounded`).
- No wake-up is lost, no job is lost or handled twice, and shutdown drains within a
  bounded number of steps (`ThreadPools`).
- The offset index agrees with a linear scan of the unsorted column, for the ordering
  operators exactly when the sorted keys rise past the value
  (`OffsetIndex.OrderingOffsetsExactly`), for equality exactly when no other spelling of
  the value's number occurs (`OffsetIndex.EqualityAgreesExactly`).

## Files

| file | content |
|---|---|
| Text.dfy, Statements.dfy | string helpers, parsed statements and their buffer sizes |
| Alphabet.dfy, Numbers.dfy | what the helpers mean over characters and integers |
| CsvFields.dfy, Files.dfy | which lines and files are read, and what is appended to them |
| Answers.dfy, Acceptance.dfy | what SELECT and INSERT answer, over table and statement alone |
| Csv.dfy, Storage.dfy | CSV records, table files, `storage_insert` and the file scan for the next id |
| BPTreeNode, BPTreeShape, BPTreeLeaves, BPTreeHeap, BPTree, BPTreeOrder | node arrays, shape invariant on a ghost graph, leaves and chain, heap representation, the tree object, order and height |
| EngineModel.dfy, EngineInvariant.dfy | one statement as a function on the engine's state, and what every state satisfies |
| TableRuntime.dfy, Executor.dfy | the in-memory table and the executor on the heap, tied to EngineModel |
| WriteThrough.dfy, Naive.dfy, Durability.dfy | memory against file, the refinement of the naive database, and what clients can rely on across statements |
| Hypotheses.dfy | why the refinement needs its hypotheses, and that they are the exact ones |
| Tokenizer, Lexing, Parser, Grammar, SqlText, SqlTexts | lexer, parser, exactness and round trips |
| TokenizerCache.dfy, CacheRecency.dfy, CacheSessions.dfy | the statement cache, its recency order, sessions that interleave in it |
| Queries.dfy, LockProtocol.dfy, CacheLock.dfy, Serializability.dfy, LockTheorems.dfy, ConcurrentEngine.dfy | sessions under the cache lock and the database lock |
| Facade.dfy | the facade on the heap |
| JobQueue.dfy, ThreadPool.dfy | the ring queue and the worker pool |
| HashIndex.dfy, RangeIndex.dfy, OffsetIndex.dfy | the offset index |

A method marked with a C function's name follows that function's branches and is proved
against a specification function; lemmas then prove what the function promises, and the
modules Alphabet, Numbers, CsvFields, Files, Answers and Acceptance state it without any of
those functions.

## Hypotheses

- Allocation and file operations succeed, and only this code writes the files. A file is
  the sequence of its newline-terminated lines.
- Mutex, reader-writer lock and condition variable have their POSIX meaning. Spurious
  wake-ups happen, and a signal releases at least one sleeper.
- A text is a C string, so it contains no NUL.
- For the refinement of the naive database, a table is always spelled in one letter case,
  because the runtime compares names ignoring case and file names do not.
  `Hypotheses.SpellingIsNeededExactly` proves this hypothesis exact, and
  `Hypotheses.TwoSpellingsShowTheCache` shows a failing input.
- For the same refinement every accepted insert survives the trip through the file
  (`Naive.Survives`): no CR or LF in a value, or in a column name when the insert creates
  the table, and equal values under a repeated column of an existing table. Single
  answers do not need this, only what is answered later does;
  `Naive.StatementRefinesExactly` proves it exact. `Naive.LineBreakLosesTable` and
  `Hypotheses.RepeatedColumnChangesAnswer` show what a client sees otherwise. Statements
  that come from SQL text never have line breaks in column names
  (`SqlText.QueriesAreWellFormed`).
  A condition on the statement alone, whatever the tables hold, is `Naive.Plain`
  (`Naive.PlainExactly`).
- What does not speak of the naive database needs neither hypothesis: the heap engine,
  serializability, the lock theorems and the cache theorems hold for every statement that
  fits the engine's buffers, under any spelling, and the facade for every text.

## Where the code differs from its description

- DELETE parses, but the executor refuses it (src/db/executor.c:562-565), although the
  repository's documentation lists it among the supported statements.
- A SELECT with a condition on a column the table lacks fails, unless the table is empty
  (src/db/table_runtime.c:543-601).
- The hash index finds equal texts, the scan takes integers by value: `01` and `1` differ
  for one and agree for the other (`OffsetIndex.LeadingZeroIsMissed`). They coincide
  exactly when no key is such another spelling (`OffsetIndex.EqualityAgreesExactly`).
- Under the global-mutex policy the tokenizer cache has no lock, and a query is lexed
  before it takes the database lock, so two sessions can be in the cache at once
  (`CacheLock.RegionsExcludeExactly`, `CacheLock.RacesInvolveTheFirstLexing`). The facade
  always selects the split policy.
- Two sessions that miss the same statement at the same time leave it in the cache twice
  (`CacheSessions.InterleavedMissesDuplicate`), and nothing else does
  (`CacheSessions.RepeatsNeedOverlap`); answers stay right.

## Model

| member | source | states |
|---|---|---|
| Acceptance.EngineSelects | src/db/executor.c:527-557 | On every coherent state a SELECT on a usable table succeeds exactly when every column it names is there, and the column of its condition unless the table is empty; it answers, under the headers of the first columns of those names, cell by cell the rows that meet the condition, in order. A missing or unusable table gives the stated failures. |
| Acceptance.EngineInserts | src/db/executor.c:466-497 | On every coherent state an INSERT answers one row inserted exactly when the table takes it, and otherwise the stated failure. |
| Acceptance.InsertSucceedsExactly | src/db/table_runtime.c:148-211 | A missing table takes 1 to 31 columns of which none is id; a usable one takes the names of all its columns after the first, in order and in any letter case, without id, while no row has the id 2147483647; an unusable one takes nothing. |
| Acceptance.RespelledColumns | src/db/table_runtime.c:161-166 | Writing the column names in another letter case changes no answer to an INSERT. |
| Acceptance.EngineDeletes | src/db/executor.c:562-565 | A DELETE changes nothing and answers the stated refusal. |
| Answers.SelectSucceedsExactly | src/db/executor.c:183-231 | Exactly when projection and condition find their columns. |
| Answers.SelectAnswers | src/db/executor.c:362-387 | Columns, rows and cells of a successful SELECT, in terms of names that agree up to case and of values that are smaller as numbers or as texts. |
| Answers.SelectFailsAs | src/db/executor.c:527-557 | A SELECT that does not succeed reports the projection exactly when a column it names is missing, and otherwise its condition. |
| Answers.SelectByNumber | src/db/table_runtime.c:255-273 | On a column of 64-bit numbers, written with or without sign and leading zeros, `c op y` selects the rows whose number stands in that relation to y. |
| Answers.SelectReports | src/db/executor.c:305-336 | A SELECT reports its rows in number and message, and the use of the id index exactly when it asks a table with rows for an id that fits an int. |
| Naive.StatementRefinesExactly | src/db/executor.c:466-557 | From a coherent state one statement always gets the naive answer, and afterwards memory and files mean the naive database if and only if the statement is no insert, is refused, or its row survives the file: no line break, and equal values under a repeated column of an existing table. |
| Naive.RunRefines | src/db/executor.c:567-582 | Any safe sequence of INSERT, SELECT and DELETE statements over any tables gets, one by one, the answers of a naive database without cache, files, CSV or index, and the files end up meaning that database. |
| Naive.SafeRunsExactly | src/db/executor.c:567-582 | The cached table agrees with its file after every statement of a run if and only if the run is safe, which the naive database alone decides. |
| Naive.PlainExactly | src/db/storage.c:1071-1113 | A statement survives in every database if and only if it is no insert, or one no table can take, or one without line breaks and with equal values under repeated columns. |
| Naive.PlainRunsAreSafe | src/db/executor.c:567-582 | A run of such statements is safe whatever the tables hold. |
| Naive.StatementRefines | src/db/executor.c:466-557 | A statement that survives gives the naive answer, updates the meaning of the files as the naive database does, and leaves a coherent state. |
| Naive.LoadShowsView | src/db/table_runtime.c:336-453 | Activating and loading a table shows exactly what its file means; the load fails exactly when the file is unusable. |
| Naive.InsertRowRefines | src/db/table_runtime.c:468-533 | An insert succeeds exactly when the naive database allows it, and memory, file and naive table agree afterwards exactly when the row survives. |
| Naive.NextIdOfIsNextId | src/db/table_runtime.c:445-448 | The id an insert assigns is one more than every id in use and no more than needed, and it is the only such number. |
| Naive.LineBreakLosesTable | src/db/storage.c:193-217 | A value with a line break is accepted and answered from memory, but after another table has been active the table cannot be loaded any more. |
| Hypotheses.SwitchIsInvisibleExactly | src/db/table_runtime.c:336-370 | The same SELECT right after a successful insert, and after a SELECT on another table, answers the same if and only if the inserted row survives. |
| Hypotheses.SpellingIsNeededExactly | src/db/table_runtime.c:336-357 | Every surviving statement on every coherent state refines the naive database if and only if no two usable table names agree up to letter case. |
| Hypotheses.TwoSpellingsShowTheCache | src/db/table_runtime.c:336-357 | From an empty engine, one insert under one spelling and a SELECT under another show the row while the table stays loaded, and no table once another one has been active. |
| Hypotheses.RepeatedColumnChangesAnswer | src/db/storage.c:1071-1081 | After an insert that repeats a column with two values, the same SELECT shows both values at first and the first one twice after another table has been active. |
| Hypotheses.RepeatedColumnIsReached | src/db/storage.c:1071-1081 | Two inserts of (a, a) with the values x and y into an empty engine succeed, and the second one does not survive. |
| EngineInvariant.ExecuteKeepsOk | src/db/executor.c:567-582 | Every statement, whatever its values, its columns and the spelling of its table, keeps ids distinct and in 0..INT_MAX, the next id above them all and rows rectangular; a table whose id column is not the first keeps its header in its file. |
| EngineInvariant.ExecuteKeepsHeader | src/db/executor.c:567-582 | Where every table has one spelling, every statement from SQL text leaves the loaded table's header in its file, even one whose values break the file. |
| EngineModel.LoadKeepsRuntimeOk | src/db/table_runtime.c:359-453 | A load, successful or failed, leaves a runtime whose ids, rows and next id fit together. |
| EngineModel.NextIdExtends | src/db/table_runtime.c:445-448 | Appending a row moves the next id past that row's id and no further. |
| EngineModel.StoredMeansIdFirst | src/db/table_runtime.c:213-232 | If storage accepts a row for a loaded table, the id column is column 0, where the runtime writes the id. |
| Durability.InsertedRowStaysFound | src/db/executor.c:466-557 | After a successful insert and any further statements on any tables, the run being safe, a SELECT by the id it was given, max + 1 of its table before the insert, answers under the table's columns exactly the inserted row, through the index. |
| Durability.EngineGivesTheId | src/db/table_runtime.c:499-523 | The id a successful insert is given is the one that the runtime writes into its new last row. |
| Durability.RunExtends | src/db/executor.c:567-582 | No safe run of the engine loses or changes a row or a column: every table file that was usable keeps its columns and its rows, new rows coming after them. |
| Durability.SelectByIdFinds | src/db/executor.c:338-360 | Selecting all columns by the id of a row answers that row and no other. |
| Durability.ConditionsCutTheTable | src/db/table_runtime.c:255-273 | The rows selected by `<`, `=` and `>` together are the table, as multisets and for any selected columns, and `>=`, `<=` and `!=` select exactly the rows their opposites leave. |
| WriteThrough.ReloadAfterInsertExactly | src/db/table_runtime.c:468-533 | After an accepted insert, reading the file back gives the table in memory if and only if no value contains a line break and repeated columns carry equal values; the next id is one higher. |
| WriteThrough.ReloadAfterFirstInsertExactly | src/db/storage.c:961-1026 | After the insert that creates a table, the file reads back as the new table if and only if no name and no value contains a line break. |
| WriteThrough.ReloadAfterInsertIs | src/db/storage.c:1071-1113 | After an accepted insert the file reads back as the old rows and the row storage wrote, each value looked up by its column's name, or not at all when a value contains a line break. |
| WriteThrough.RefusalReloads | src/db/table_runtime.c:525-529 | When storage refuses a row, memory shows afterwards what the file holds, whatever it showed before: the file's table if it can be used, and nothing otherwise. |
| WriteThrough.StorageAcceptsExactly | src/db/storage.c:1027-1113 | Storage accepts what the runtime accepted unless the statement names an id column, and the row it appends carries the id the runtime computed. |
| WriteThrough.AppendedRowLoads | src/db/storage.c:644-760 | One appended record without line breaks is read back as exactly that row. |
| WriteThrough.BrokenRowDoesNotLoad | src/db/storage.c:168-271 | A line break in a cell makes the appended record unreadable. |
| Storage.ScanAgreesWithRows | src/db/storage.c:456-519 | The id storage finds by scanning the file again is the id obtained from the loaded rows. |
| Storage.LoadTableFromFile | src/db/storage.c:644-760 | Reads header and rows: blank lines skipped, over-long lines, malformed records and wrong widths refused. |
| Storage.GetNextAutoId | src/db/storage.c:456-519 | Scans the data lines for the largest id; fails on a record it cannot read or an id that is no integer. |
| Storage.ValidatePrimaryKey | src/db/storage.c:319-374 | Accepts a row exactly when there is no id column or its id is not empty and no readable record has it. |
| Storage.CheckSchema | src/db/storage.c:1028-1059 | Accepts a statement exactly when the counts agree and every column but an automatic id is named by it. |
| Storage.OrderValues | src/db/storage.c:1071-1081 | Puts every value under the column of its name, and the automatic id in the id column. |
| Storage.Disk.Insert | src/db/storage.c:914-1119 | Appends exactly the row the specification gives, or leaves the contents alone; other files never change. |
| Files.AppendsExactly | src/db/storage.c:1027-1113 | Whether and what storage appends to a file that loads: a value for every column under its name, an id it gives being max + 1 of integer ids, an id the statement brings being new and not empty. |
| Files.StartsExactly | src/db/storage.c:961-1026 | The file of a new table: when it is written, its header and its first row. |
| Files.LoadsExactly | src/db/storage.c:644-760 | Data lines load exactly when each has at most 16382 characters and is skipped or has the right number of cells; the rows are the cells of the lines not skipped, in order. |
| Files.UsableExactly | src/db/table_runtime.c:402-442 | A file is usable exactly when it loads, has an id column up to case, and every row has an id of its own between 0 and 2147483647 there. |
| Files.LoadOutcomes | src/db/table_runtime.c:359-453 | What a load leaves: nothing changed for a missing or unreadable file, an empty runtime for unusable ids, and otherwise the table with the least id above those in use. |
| Files.HeaderExactly | src/db/storage.c:599-640 | Exactly which columns the first line gives: at most 32 names of at most 63 characters. |
| Storage.LinesAre | src/db/storage.c:599-640 | A text is cut at its newlines; what follows the last one is a line if there is anything. |
| Files.KeyUnusedExactly | src/db/storage.c:319-374 | On every file, the key scan succeeds exactly when the data lines load and no row has the key. |
| Files.ScanSucceedsExactly | src/db/storage.c:456-519 | On every file, the id scan succeeds exactly when the data lines load and every id is an integer. |
| TableRuntimes.TableRuntime.LoadIfNeeded | src/db/table_runtime.c:359-453 | Loads the active table if it is not loaded: the index becomes exactly the map from ids to row positions, bad ids reset the runtime, an unreadable file leaves it alone. |
| TableRuntimes.TableRuntime.FillRow | src/db/table_runtime.c:402-449 | One turn of the row loop indexes one more row, and refuses exactly when the source's ids are not distinct integers in 0..INT_MAX. |
| TableRuntimes.TableRuntime.AppendRow | src/db/table_runtime.c:499-523 | Appends the row in memory and in the index; the duplicate-key failure of the tree insert is unreachable. |
| TableRuntimes.TableRuntime.StoreRow | src/db/table_runtime.c:525-529 | Writes the row through; when storage refuses, the runtime becomes a fresh load of the file. |
| TableRuntimes.TableRuntime.InsertRow | src/db/table_runtime.c:468-533 | The whole insert performs the specified transition of memory and files and reports the slot of the new row. |
| TableRuntimes.TableRuntime.Activate | src/db/table_runtime.c:336-357 | Keeps the runtime of the same table and replaces any other by an empty, unloaded one. |
| TableRuntimes.TableRuntime.InitializeSchema | src/db/table_runtime.c:174-211 | A new table gets `id` and the statement's columns, refused when empty, too wide or with an explicit id. |
| TableRuntimes.TableRuntime.ValidateInsertSchema | src/db/table_runtime.c:148-172 | Accepts exactly the statements that name all columns after the first, in order, letter by letter up to case. |
| TableRuntimes.IndexGrows | src/db/table_runtime.c:514-523 | Adding a row with a fresh id to rows and index keeps the index exactly the map from ids to positions. |
| TableRuntimes.DuplicateBreaksIds | src/db/table_runtime.c:435-443 | If the tree already holds a row's id, the source's ids are not distinct. |
| Executor.LookupIsFilter | src/db/executor.c:338-360 | Whenever the id index is usable for a condition, one lookup gives the rows a linear filter gives, for every spelling of the integer. |
| Executor.CanUseIdIndex | src/db/executor.c:305-336 | The index is used exactly for `=` on the id column with an integer in 0..INT_MAX on a table with rows. |
| Executor.CollectRowsById | src/db/executor.c:338-360 | Collects through the B+ tree the rows that the filter selects. |
| Executor.CollectRowsByScan | src/db/executor.c:362-387 | Collects by scanning the rows that the filter selects, in order; an unknown column fails unless the table is empty. |
| Executor.LinearScanByField | src/db/table_runtime.c:543-601 | Lists, in order, the slots whose cell satisfies the condition. |
| Executor.PrepareProjection | src/db/executor.c:183-231 | Resolves each selected name to the first column that agrees with it up to case, or takes all columns, with their headers. |
| Executor.SelectLoaded | src/db/executor.c:527-557 | A SELECT on a loaded table answers as the plain filter does, whichever access path it takes. |
| Executor.ExecuteStatement | src/db/executor.c:567-582 | The engine on the heap, with its B+ tree, computes the state transition and the answer of the value model. |
| BPTreeIndex.BPTree.Insert | src/db/bptree.c:300-335 | From any tree in good shape: a duplicate key is refused and nothing changes; any other key is added to the map and the shape stays good; the tree grows exactly when the whole search path was full. |
| BPTreeIndex.BPTree.Search | src/db/bptree.c:78-99 | Finds a key exactly when the map holds it, with the map's row. |
| BPTreeIndex.InsertIntoParent | src/db/bptree.c:125-163 | Absorbs a pending split: parent links, separators, depths and the leaves are as they should be, and the tree grew exactly when all nodes above were full; the mutual recursion ends at the root. |
| BPTreeIndex.InsertBesideChild | src/db/bptree.c:153-162 | The two branches below an existing parent: room for the new child, or a split of the parent. |
| BPTreeIndex.SplitInternal | src/db/bptree.c:223-298 | Splits a full inner node around its middle key and hands the promoted key to the parent. |
| BPTreeIndex.SplitLeaf | src/db/bptree.c:165-221 | Splits a full leaf; map, shape, leaf chain and height come out as required. |
| BPTreeIndex.FindLeaf | src/db/bptree.c:61-76 | Walks down to the leaf whose range holds the key. |
| BPTreeIndex.FindChildIndex | src/db/bptree.c:9-24 | Finds the child's position, or -1 exactly when it is no child. |
| BPTreeIndex.FullAboveIsPathFull | src/db/bptree.c:125-298 | All ancestors of the leaf being full is the same as all nodes on the search path being full. |
| BPTreeLeaves.SearchIsComplete | src/db/bptree.c:61-99 | The key is in the map if and only if the leaf reached by the search holds it. |
| BPTreeLeaves.LeafInsertKeepsShape | src/db/bptree.c:101-123 | Inserting into a leaf with room keeps the shape invariant, overfull by at most that leaf. |
| BPTreeLeaves.LeafSplitKeepsShape | src/db/bptree.c:165-221 | Cutting the overfull leaf in two leaves a tree in good shape but for one pending sibling. |
| BPTreeLeaves.LeafSplitKeepsChain | src/db/bptree.c:216-217 | The new leaf enters the `next` chain right after the split one. |
| BPTreeShape.NewRootKeepsShape | src/db/bptree.c:136-150 | A new root over the two halves restores the shape invariant. |
| BPTreeShape.LinkKeepsShape | src/db/bptree.c:29-46 | Putting separator and right half beside the left half keeps the shape, but for the possibly overfull parent. |
| BPTreeShape.InnerSplitKeepsShape | src/db/bptree.c:223-298 | Cutting an overfull inner node, its middle key promoted and the moved children re-parented, leaves one pending sibling. |
| BPTreeHeap.SplitInner | src/db/bptree.c:223-295 | The array copies and parent rewrites of an inner split realise exactly the specified tree. |
| BPTreeHeap.SplitLeafHeap | src/db/bptree.c:165-215 | The array copies and link rewrites of a leaf split realise exactly the specified tree. |
| BPTreeHeap.LinkChild | src/db/bptree.c:29-46 | The two shifting loops and the parent link realise exactly the specified insertion. |
| BPTreeNode.InsertIntoLeaf | src/db/bptree.c:101-123 | Shifts keys and rows so that the pair lands at its sorted place, all others kept. |
| BPTreeNode.InsertIntoInternal | src/db/bptree.c:29-46 | Inserts key and right child at the given place by shifting both arrays. |
| BPTreeOrder.NextVisitsEveryLeafOnce | src/db/bptree.c:216-217 | From the leftmost leaf, `next` visits the leaves in tree order, each exactly once, and then ends. |
| BPTreeOrder.EntriesAreSortedMap | src/db/bptree.c:165-221 | The pairs read along the chain are strictly increasing in key and are exactly the map's entries. |
| BPTreeOrder.ChainIsTreeOrder | src/db/bptree.c:165-221 | The chain is the left-to-right list of the leaves of the tree. |
| BPTreeOrder.ManyLeavesBelow | src/db/bptree.c:223-298 | A node other than the root, h levels above the leaves, has at least 16^h leaves below it. |
| BPTreeOrder.OccupancyBoundsHeight | src/db/bptree.h:6 | A tree of h+1 levels, h >= 1, holds at least 2*16^h keys. |
| BPTreeOrder.AtMostEightLevels | src/db/bptree.h:6 | Whatever 32-bit keys are inserted, the tree has at most eight levels. |
| Csv.RoundTripExactly | src/db/storage.c:168-271 | Parsing the line written for a record gives the record back if and only if it is not empty and no cell contains CR or LF. |
| CsvFields.ReaderIsExact | src/db/storage.c:168-271 | For every line: the reader gives some cells if and only if the line is a writing of them as plain and quoted pieces with commas between fields, up to its first line break outside quotes. |
| CsvFields.CellIsWritten | src/db/storage.c:524-567 | A cell is written bare unless it has a comma, a quote, CR or LF, and then as one quoted piece. |
| CsvFields.RowIsWritten | src/db/storage.c:572-594 | A row is written as its cells with commas between them. |
| Csv.RowFitsLineBuffer | src/db/storage.c:572-594 | Every row the runtime can write fits the reader's line buffer. |
| Csv.ParseCsvLine | src/db/storage.c:168-271 | The character loop with its quote flag computes the fields of the line, or refuses an open quote. |
| Csv.WriteCsvValue | src/db/storage.c:524-567 | Writes the cell, in quotes with its quotes doubled exactly when it needs them. |
| Csv.WriteCsvRow | src/db/storage.c:572-594 | Writes the cells with commas between them and a newline. |
| Text.EqualsIgnoreCase | src/common/utils.c:103-118 | True exactly when the texts agree up to the case of ASCII letters. |
| Alphabet.SameNameExactly | src/common/utils.c:103-118 | Two names agree exactly when they are letter by letter the same letter of the alphabet in either case, or the same character. |
| Text.IsInteger | src/common/utils.c:145-167 | True exactly for an optional sign followed by digits only, at least one. |
| Text.CompareValues | src/common/utils.c:180-202 | Computes the comparison that the next three rows describe. |
| Numbers.ComparesNumbers | src/common/utils.c:180-202 | Two texts that say the integers x and y compare as x and y do, each clamped to 64 bits as by strtoll. |
| Numbers.ComparesTexts | src/common/utils.c:180-202 | If one of them says no integer they compare as in a dictionary. |
| Numbers.SpelledIsRead | src/common/utils.c:172-174 | A sign, any zeros and the digits of x are read as x, clamped to 64 bits. |
| Numbers.IntegerTextsSpell | src/common/utils.c:145-167 | The texts accepted as integers are exactly those that say a number so. |
| Alphabet.StrCmpExactly | src/common/utils.c:201 | The byte comparison is the order of a dictionary: the first difference decides, and a prefix comes first. |
| Numbers.DecimalOrder | src/db/table_runtime.c:213-232 | The texts of ids stand in the order of the ids: shorter ones first, those of one length as in a dictionary. |
| Numbers.DecimalIsOnto | src/db/table_runtime.c:213-232 | Every digit text without a leading zero is the text of an id, so that order leaves no choice. |
| Text.DecimalRoundTrip | src/db/table_runtime.c:213-232 | Printing an id and parsing it gives the id back. |
| Text.TrimInPlace | src/common/utils.c:54-76 | Cuts white space at both ends of the buffer and moves the rest to the front. |
| Text.TrimmedIsTrimmed | src/common/utils.c:54-76 | Trimming twice is trimming once, and what is left neither starts nor ends with white space. |
| Serializability.AnswersAreSerial | src/db/db_engine_facade.c:79-111 | For every interleaving and both lock policies, each answered query stands in the log and its answer is the one it gets when the logged queries run one at a time. |
| LockTheorems.HoldTogetherExactly | src/concurrency/lock_manager.c:45-61 | Two queries can hold the database lock at the same time if and only if the policy is the split one and both are SELECTs; a run shows it. |
| LockTheorems.UpgradesExactly | src/db/db_engine_facade.c:92-104 | A session gives its first lock back exactly when it reads and its table is not the loaded one under any letter case, and then asks for the write lock. |
| Serializability.StateIsSerial | src/db/db_engine_facade.c:79-111 | Whenever no session holds the lock alone, memory and files are exactly those of the serial run. |
| Serializability.RunKeepsInv | src/db/db_engine_facade.c:79-111 | The lock records exactly its holders, at most one session is in the middle of a change, and every session's progress agrees with the serial state before it. |
| Serializability.PhasesArePerform | src/db/executor.c:466-557 | The steps a session takes under its lock add up to one execution of its statement. |
| Serializability.LoadedSelectIsReadOnly | src/db/table_runtime.c:336-370 | A SELECT on the loaded table finds nothing to activate or load and changes nothing. |
| LockTheorems.ReadersAreSafe | src/db/db_engine_facade.c:92-104 | From its check on, a session in read mode finds its table loaded until it gives the lock back, and no step of it changes the shared tables. |
| LockTheorems.LogIsLastAcquisitionOrder | src/concurrency/lock_manager.c:45-61 | The serial order is the order of last lock acquisition. |
| LockTheorems.RealTimeOrder | src/db/db_engine_facade.c:79-111 | A query answered before another one arrives precedes it in the serial order. |
| LockTheorems.NeverStuck | src/concurrency/lock_manager.c:37-92 | While some query is unanswered, some session can move: neither the release and reacquire of the upgrade nor the cache lock taken inside the database lock can deadlock. |
| LockTheorems.RunsAreBounded | src/db/db_engine_facade.c:79-111 | Every query takes at most fifteen steps, both lexings included, so runs without new queries end. |
| ConcurrentEngine.ConcurrentAnswersAreNaive | src/db/db_engine_facade.c:79-111 | Every answer of a concurrent run is the naive database's answer at the query's place in the serial order, as long as the queries up to there spell each table in one way and those before it survive. |
| ConcurrentEngine.PlainQueriesAreSafe | src/db/db_engine_facade.c:79-111 | Plain queries survive in every order. |
| ConcurrentEngine.AfterRefines | src/db/db_engine_facade.c:113-166 | A serial run of queries that survive stays coherent and its files mean the naive database. |
| CacheLock.RegionsExcludeExactly | src/concurrency/lock_manager.c:37-92 | In the lock protocol, where a query is lexed once before the database lock and once under it, sessions exclude each other from the tokenizer cache in every run if and only if the policy is the split one. |
| CacheLock.RacesInvolveTheFirstLexing | src/db/db_engine_facade.c:79-111 | Whenever two sessions are in the cache at once, the policy is the global mutex and one of them has not asked for the database lock yet. |
| CacheLock.LexedTwice | src/db/db_engine_facade.c:79-111 | In every run a query with a text runs only after two lookups in the cache, one before it asked for the database lock and one under it, and each is followed by a store exactly when it missed. |
| JobQueues.JobQueue.Push | src/concurrency/job_queue.c:36-54 | Appends the job unless the queue is full or shutting down. |
| JobQueues.JobQueue.TryPop | src/concurrency/job_queue.c:56-76 | One pass of the pop loop: the oldest job, or to wait, or closed when empty and shutting down. |
| JobQueues.RingPush | src/concurrency/job_queue.c:44-46 | Writing the free slot appends a job and keeps the others, across the end of the array. |
| JobQueues.RingPop | src/concurrency/job_queue.c:72-74 | Advancing the head removes exactly the oldest job, across the end of the array. |
| ThreadPools.QueuedJobsHaveAWorker | src/concurrency/job_queue.c:36-76 | No lost wake-up: in every reachable state with a queued job some worker is neither asleep nor gone. |
| ThreadPools.RunKeepsInv | src/concurrency/thread_pool.c:12-32 | While a worker sleeps, the queued jobs are at most the woken workers; jobs are conserved; the busy count is right; exits happen only when drained. |
| ThreadPools.JobsAreConserved | src/concurrency/thread_pool.c:12-32 | Jobs taken are a prefix of jobs accepted, the rest is the queue, and each taken job is held by one worker or handled. |
| ThreadPools.BusyIsBounded | src/concurrency/thread_pool.c:19-29 | The busy count is the number of workers in the handler region, between 0 and the worker count. |
| ThreadPools.ShutdownDrains | src/concurrency/thread_pool.c:104-123 | When all workers have exited, the queue is empty and every accepted job was handled exactly once. |
| ThreadPools.ShutdownIsNotStuck | src/concurrency/job_queue.c:78-87 | After shutdown every worker that has not exited can step: the broadcast leaves nobody asleep. |
| ThreadPools.ShutdownMakesProgress | src/concurrency/thread_pool.c:104-118 | After shutdown every worker step leaves strictly less to do and nothing adds work. |
| ThreadPools.ShutdownIsBounded | src/concurrency/thread_pool.c:104-118 | From shutdown on, the worker steps of a run are at most the work left at that moment. |
| ThreadPools.ShutdownEndsDrained | src/concurrency/thread_pool.c:104-123 | When no worker can step any more after shutdown, all have exited, the queue is empty and every accepted job was handled once. |
| ThreadPools.StatsAreConsistent | src/concurrency/thread_pool.c:88-102 | Busy and idle workers add up, queue length and free slots add up, and none is negative. |
| ThreadPools.StatsMean | src/concurrency/thread_pool.c:88-102 | In every reachable state the busy number is that of the workers in the handler region, the idle number that of the others, the queue length that of the accepted jobs nobody has taken, and the free slots the rest of the capacity. |
| ThreadPools.SubmitWakes | src/concurrency/job_queue.c:36-54 | A refused submit changes nothing; an accepted one can wake any set of sleepers, one at least if somebody sleeps, and changes no other worker. |
| ThreadPools.SpuriousWakeIsHarmless | src/concurrency/job_queue.c:57-85 | A sleeper woken without a signal goes back to sleep with nothing changed exactly when no job is queued and no shutdown has begun; otherwise it takes the oldest job or exits. |
| ThreadPools.AcceptedExactly | src/concurrency/job_queue.c:36-54 | A submit is accepted exactly before shutdown and while free slots are reported. |
| ThreadPools.ThreadPool.Submit | src/concurrency/thread_pool.c:80-86 | The object's submit is the machine's submit step, and reports acceptance. |
| ThreadPools.ThreadPool.GetStats | src/concurrency/thread_pool.c:88-102 | The object reports the machine's counters. |
| Lexing.LayoutLexes | src/db/tokenizer.c:319-485 | Any layout of canonical tokens, with white space wherever two would run together, lexes to exactly those tokens. |
| Lexing.LexedIsCanonical | src/db/tokenizer.c:319-485 | The lexer produces canonical tokens only: upper-case keywords, words, integers, strings and the fixed operators, each shorter than 256. |
| Lexing.RespellingKeepsTokens | src/db/tokenizer.c:319-485 | Writing the tokens of an accepted text out again in any layout and lexing it changes nothing. |
| Lexing.TokenizeTrimmed | src/db/tokenizer.c:491-513 | Trimming changes no token, for texts that lex and for texts that do not. |
| Lexing.NoTokensExactly | src/db/tokenizer.c:337-340 | A text has no tokens exactly when it consists of blanks, tabs, newlines, vertical tabs, form feeds and carriage returns. |
| Lexing.OthersAreCovered | src/db/tokenizer.c:319-485 | In a text that lexes, every character other than those six belongs to a token. |
| Lexing.KeywordsAre | src/common/utils.c:123-140 | The keywords are the seven words, in any letter case. |
| Lexing.WordTokens | src/db/tokenizer.c:440-470 | A word of at most 255 characters is one token: the keyword in capitals if it is one in any letter case, and otherwise an identifier with its own letters. |
| Lexing.WordLimit | src/db/tokenizer.c:218-233 | A word lexes exactly when it has at most 255 characters. |
| Lexing.StringLimit | src/db/tokenizer.c:239-269 | A string lexes exactly when its contents have at most 255 characters. |
| Lexing.NumberLimit | src/db/tokenizer.c:274-297 | A number lexes exactly when it has at most 255 characters. |
| Lexing.TerminatorIsFirstSemicolon | src/common/utils.c:316-341 | Where lexing succeeds, the terminator found is the offset of the first semicolon token, and none is found exactly when there is none. |
| Lexing.FindStatementTerminator | src/common/utils.c:316-341 | The loop with its quote flag finds the first `;` outside quotes. |
| Tokenizer.TokenizeSql | src/db/tokenizer.c:319-485 | The scanning loop computes the token list, or fails on an over-long token or an open string. |
| Tokenizer.ReadWord | src/db/tokenizer.c:218-233 | Reads the longest word, or fails when it has 256 characters or more. |
| Tokenizer.ReadString | src/db/tokenizer.c:239-269 | Reads a literal up to its closing quote, two quotes standing for one; fails when it is open or too long. |
| Tokenizer.ReadNumber | src/db/tokenizer.c:274-297 | Reads an optional sign and the longest run of digits, or fails when too long. |
| Grammar.ParserIsExact | src/db/parser.c:365-385 | The parser succeeds with a statement if and only if the token list is that statement's token form, up to a final semicolon and the kind of literals. |
| Grammar.FormsAreUnambiguous | src/db/parser.c:121-385 | No token list is the form of two statements. |
| Parser.Parse | src/db/parser.c:365-385 | The cursor parser computes the grammar's statement. |
| Parser.ParseNames | src/db/parser.c:148-166 | The column loop reads a comma-separated list of at most 32 identifiers shorter than 64. |
| Parser.ParseValues | src/db/parser.c:184-202 | The value loop reads a comma-separated list of at most 32 literals shorter than 256. |
| Parser.ParseInsert | src/db/parser.c:121-216 | Reads an INSERT whose column and value counts agree. |
| Parser.ParseSelect | src/db/parser.c:288-325 | Reads a SELECT, `*` meaning no named columns. |
| SqlText.PrintRoundTrip | src/db/db_engine_facade.c:24-56 | Printing any printable statement and handing over the text gives the statement back. |
| SqlTexts.SqlRoundTrip | src/db/db_engine_facade.c:24-56 | The text of an INSERT, SELECT or DELETE, written out letter by letter with its integers quoted or bare, is read as that statement. |
| SqlText.TextRoundTrip | src/db/parser.c:121-385 | Every layout of every token form of a statement, whichever way its literals are written, lexes and parses to that statement. |
| SqlText.QueryOfExactly | src/db/db_engine_facade.c:24-56 | For every text, trimmed or not, the facade reads a statement from it if and only if the text lexes to a form of that statement. |
| SqlText.LayoutRoundTrip | src/db/db_engine_facade.c:24-56 | Handing the engine any layout of any token form of a statement, white space around it included, gives the statement back. |
| SqlText.WhiteLayoutRoundTrip | src/db/db_engine_facade.c:24-56 | The same with gaps of any of the six white characters, named one by one. |
| SqlText.RejectedExactly | src/db/db_engine_facade.c:113-166 | For every text: the statement it stands for, or the message that says whether it is white, does not lex, or has no form. |
| SqlText.WritableExactly | src/db/db_engine_facade.c:24-56 | The statements that some text stands for are exactly the printable ones. |
| SqlText.WritableTexts | src/db/parser.c:121-385 | The same character by character: names of at most 63 letters, digits and underscores that start with no digit and are no keyword, at most 32 of them, values of at most 255 characters, and the seven operator tokens. |
| SqlText.QueriesAreWellFormed | src/db/db_engine_facade.c:113-166 | Whatever the text, the statement handed to the executor fits its buffers, names its table and has column names without line breaks. |
| Statements.FitsExactly | src/db/parser.h:18-54 | The buffer sizes: tables and columns of at most 63 characters, 32 columns, values of 255, operators of 3. |
| TokenizerCaches.TokenizerCache.Lookup | src/db/tokenizer.c:89-127 | A hit returns the statement's tokens, moves its entry to the front and counts; a miss changes nothing. |
| TokenizerCaches.TokenizerCache.Store | src/db/tokenizer.c:133-172 | Pushes the entry to the front and evicts the last one beyond 64; every entry stays correct and the count is the length. |
| TokenizerCaches.TokenizerCache.EvictOldest | src/db/tokenizer.c:60-83 | Unlinks exactly the last entry. |
| TokenizerCaches.TokenizerCache.TokenizeCached | src/db/tokenizer.c:491-531 | Used by one session at a time, the cache cannot be observed: the answer is the one of lexing the trimmed text. |
| CacheRecency.CacheIsMostRecentlyUsed | src/db/tokenizer.c:89-172 | After any sequential history the list is the at most 64 most recently used distinct statements that lex, latest first. |
| CacheSessions.CacheIsInvisible | src/db/tokenizer.c:491-531 | However sessions interleave their lookups, lexings and stores, every answer is the one without a cache, every entry is correct and there are at most 64. |
| CacheSessions.DistinctExactly | src/db/tokenizer.c:509-527 | The list stays free of repetitions throughout a run if and only if no store finds its statement among the entries it keeps. |
| CacheSessions.RepeatsNeedOverlap | src/db/tokenizer.c:509-527 | If a statement is ever twice in the list, two different sessions looked it up, missed it and stored it with overlapping times between miss and store. |
| CacheSessions.StepsAreTheObjects | src/db/tokenizer.c:89-172 | Each step of a session changes the list of keys exactly as the cache object's lookup or store does. |
| CacheSessions.InterleavedMissesDuplicate | src/db/tokenizer.c:509-527 | A run of two sessions with one text in which both miss and both store: the statement is in the list twice. |
| Facade.DbEngine.ExecuteSql | src/db/db_engine_facade.c:113-166 | For every text: trimming, cached lexing, parsing and execution on the heap perform exactly the query the text stands for, with the facade's messages for refused texts. |
| Facade.DbEngine.ParseStatement | src/db/db_engine_facade.c:24-56 | The parse before locking finds the statement that will run, and touches only the cache. |
| Facade.DbEngine.ChooseInitialLockMode | src/db/db_engine_facade.c:58-64 | Read mode exactly for texts that stand for a SELECT. |
| HashIndex.LookupIsScan | src/db/index.c:253-278 | The hash table finds the offsets of a linear scan for equal texts, in row order, however keys collide. |
| HashIndex.AddToFinds | src/db/index.c:58-97 | Adding an offset changes what is found for its key, and for no other. |
| HashIndex.EqualityIndex.Add | src/db/index.c:58-97 | Appends the offset to the key's node in its bucket's chain, or puts a new node in front. |
| HashIndex.EqualityIndex.Query | src/db/index.c:253-278 | Returns the offsets of the key's node, or none. |
| HashIndex.HashString | src/db/index.c:10-20 | The wrapped shift-and-add loop is multiplication by 33 modulo 2^64, and the chain its remainder by 101. |
| HashIndex.HashIsBase33 | src/db/index.c:10-20 | Wrapping at every step is wrapping once: the hash is the number with digits 5381 and the characters in base 33, modulo 2^64, and the chain its remainder by 101. |
| RangeIndex.RangeQueriesExactly | src/db/index.c:284-361 | For any arrangement of the rows, all four ordering queries for a value select the rows of the linear filter if and only if the arranged keys rise past the value. |
| RangeIndex.SortedQueriesExactly | src/db/index.c:244-361 | The same for the array the index builds: its queries select the filtered rows of the unsorted column exactly when its keys rise past the value. |
| RangeIndex.RangeQuerySelects | src/db/index.c:284-361 | When no key is an integer, or all keys and the value are, each ordering query on the sorted array selects exactly the rows of the linear filter. |
| RangeIndex.SlicesPartition | src/db/index.c:328-341 | `<` and `>=` part the rows, and so do `<=` and `>`, whatever the keys. |
| RangeIndex.CompareOrder | src/common/utils.c:180-202 | On texts of one kind the comparison is a total preorder. |
| RangeIndex.MixedKeysGoWrong | src/db/index.c:102-118 | For the keys 10, 1a and 9 no order of the array is right: some query for one of its keys selects other rows than the filter. |
| RangeIndex.SortIsPermutation | src/db/index.c:244-245 | Sorting loses and invents no entry, whatever the comparator does. |
| RangeIndex.TiesByOffset | src/db/index.c:102-118 | In a column of one kind the sorted array rises, and equal cells stand in the order of their offsets. |
| RangeIndex.LowerBound | src/db/index.c:130-148 | The key before the result is below the value and the one at it is not, in any array; when the keys rise past the value, exactly the keys before the result are below it. |
| RangeIndex.UpperBound | src/db/index.c:153-171 | The key before the result is not above the value and the one at it is, in any array; when the keys rise past the value, exactly the keys before the result are not above it. |
| OffsetIndex.Build | src/db/index.c:197-247 | Builds both indexes over the column; refused exactly when the column does not exist or a cell has 256 characters or more. |
| OffsetIndex.TableIndex.QueryEquals | src/db/index.c:253-278 | The offsets of the rows with the cell, in row order. |
| OffsetIndex.EqualityFindsRows | src/db/index.c:253-278 | The equality query returns the file offsets of exactly the rows whose cell in the indexed column is the value, in row order. |
| OffsetIndex.FilterFindsRows | src/db/index.c:284-361 | The linear filter to which the range queries are compared finds the file offsets of exactly the rows whose cell meets the condition. |
| OffsetIndex.TableIndex.QueryRange | src/db/index.c:284-361 | The offsets of the selected stretch of the sorted array, those that differ for `!=`, and a refusal of other operators. |
| OffsetIndex.IndexAgreesWithScan | src/db/index.c:284-361 | `!=` agrees with the linear filter on every column, an ordering operator on columns of one kind. |
| OffsetIndex.OrderingOffsetsExactly | src/db/index.c:284-361 | With distinct offsets, the built index returns the offsets of the linear filter for all four ordering operators if and only if its sorted keys rise past the value. |
| OffsetIndex.EqualityAgreesExactly | src/db/index.c:253-278 | The equality query returns the offsets of the linear filter if and only if no row equals the value as a number without equalling it as a text. |
| OffsetIndex.LeadingZeroIsMissed | src/db/index.c:253-278 | For a row 01 and the value 1 the filter finds the row and the equality query does not. |
| OffsetIndex.EqualityAgreesWithScan | src/db/index.c:253-278 | In particular they agree when the value or every key is no integer. |

## Left out

- `storage_delete`, `storage_select`, `storage_read_row_at_offset`: the executor never reaches them.
- Sockets, HTTP, routing, JSON, the command line, table printing and benchmarks.
- The CSV file as bytes on a device: locking, seeking, renaming, a last line without a newline, and failures of the file system.
- Allocation failure and the growth of row, token and result arrays: they are sequences of the right length.
- Cells of a B+ tree node beyond its key count, which the code leaves stale and never reads.
- The columns field of a runtime whose schema initialisation failed half-way: it stays unloaded and nothing reads it.
- `row_count` as a 32-bit number: more than 2^31 - 1 rows are not considered; ids are.
- The overflow of `max + 1` in the file scan when a file holds an id of 2^63 - 1: such a file never loads.
- Characters above 127: a text is a sequence of characters with the C locale's classes.
- Execution under the write lock is three steps (load, work, read rows), not one step per assignment: the lock excludes other sessions in between.
- Which waiting session gets a lock first, and fairness: every order is covered, none is promised.
- Partial failure inside `thread_pool_init`, and pool reuse after shutdown; a handler is a step that returns.
- `qsort`: an insertion sort with the same comparator; where the comparator is no order, C promises nothing, and `RangeIndex.MixedKeysGoWrong` covers every arrangement.
- What a lexing finds in the cache is a free choice in the lock protocol, where only the cache regions matter; `CacheSessions` models the list itself, and `Facade` proves that both lexings give the statement of the text.
- ThreadPools.ThreadPool.Submit: the set of woken workers is a parameter, because the condition variable chooses it.
- TokenizerCaches.TokenizerCache.TokenizeCached: the object states the use by one session at a time, each lookup and store being one step under its lock; all interleavings are in `CacheSessions`.
