# Verified model of the JDBX cores

JDBX is a document database in C with JavaScript metrics helpers. This project models the parts of it in which
complete algorithms are visible, and proves what they promise. The modules follow the program's files:

| file | what it models |
|---|---|
| `Crc32`, `PageAllocation`, `PageManager`, `WriteAheadLog`, `Bytes` | the page file: checksummed header, bitmap allocator that grows in place, append-only log of page images (`trash/jdbx_page_manager_old.c`) |
| `SizeClasses`, `BufferPool`, `PeakCounter` | the slab allocator with intrusive free lists, leak list and counters (`trash/buffer_pool_enterprise_duplicate.c`) |
| `KeyOrder`, `Entries`, `SkipList`, `IntendedIndex` | the skip list with in-place towers (`skiplist_simple_version.c`), and the index its names intend |
| `Documents`, `LibraryCreation`, `LockOrder` | queries and updates, double-checked library creation and the lock protocol of the database (`trash/database_jdbx_only.c`) |
| `CrossReferences`, `Json`, `Rbac` | the user and role update handlers and the JSON containers they edit (`src/components/api/api_rbac.c`, `src/components/utils/json.c`) |
| `Bootstrap` | the once-only bootstrap inside login (`src/components/api/api_auth.c`) |
| `QueryString`, `CollectionPath` | the query-string and path parsers (`src/components/api/api_documents.c`) |
| `Reals`, `Regression`, `Anomalies`, `Percentiles` | the statistics of the metrics scripts, over exact reals (`share/examples/js-examples`) |

Code that changes things in place is a class or a method with loops, proved against a function or predicate on values;
the promises are then lemmas about that specification. Protocols between threads are state machines whose steps are the
atomic accesses of the code. Conditions of the environment are parameters: whether a mapping or an extension of the file
succeeds, the address `mmap` returns, the height of a new tower, the answer of a permission check or of a name lookup,
the result of hashing, and the exact square root.

Where the code does not do what its comments or names say, the model follows the code, and a lemma says when it goes wrong:

* `skiplist_insert` and `skiplist_delete` walk past equal keys, so an insert never updates and a delete never removes:
  every later search gives the first value inserted under a key. It agrees with the map the calls describe, for all
  values, exactly when no successful insert and no delete of the key follows its first successful insert.
  `IntendedIndex` is the form in which both stop where search stops; that one is the map, at every point of a run,
  exactly when no insert of a present key runs out of memory, because an update frees the old value before it
  allocates the new one.
* With this list, `db_update` and `db_delete` free a document that the search goes on answering with: the pointer found
  for an id was freed once for each update and delete since the id was first added. Another skip list of the repository
  (under `trash/memory_manager_tests`) updates equal keys; with that one the sentence does not apply.
* `jdbx_free_page` does not look at the bitmap: it keeps the allocator consistent exactly when the page is in use and not
  reserved. `jdbx_alloc_page` keeps it consistent exactly when the file does not outgrow the bitmap.
* A page is restored by undoing the log, whatever was written, exactly when no write of it since the last checkpoint came
  before its first successful logging.
* The peak statistic samples the counter a second time. It is right in every run only when nobody allocates, when it was
  high enough from the start, or when a single thread allocates the only block.
* A library name of 64 bytes or more is stored shortened and is never found again, so each call creates another library.
* The login bootstrap can unlock its mutex twice. Requests then exclude each other in every run exactly when there is
  nothing to bootstrap or there are fewer than three of them; nothing is ever inserted twice.
* Users and roles name each other in every state of a run of updates exactly when every accepted update finds its own
  document in the lists it leaves at most as often as its own list names them. Two updates show how a list that names
  an id twice breaks this: from a state without duplicates, after a role asks for a list of users and then a user for
  a list of roles, both sides agree exactly when the role had asked for that user at most once, or the user asks for
  that role again.
* The header keeps 32 bits of an allocation's size; the class a block is freed to is right exactly for the sizes named in
  `SizeClasses.FreedToItsClassIff`.

## Model

| member | source | states |
|---|---|---|
| Bytes.RoundTrip | src/include/storage/jdbx.h:39-57 | A number that fits a field's width is read back from its little-endian bytes. |
| Bytes.ReadsBack | src/include/storage/jdbx.h:39-57 | So it is from its place in a structure, whatever stands before and after it. |
| Crc32.ShiftsLinear | trash/jdbx_page_manager_old.c:26-37 | The eight-step table loop is linear under exclusive or, for any number of steps. |
| Crc32.ShiftsInjective | trash/jdbx_page_manager_old.c:26-37 | Steps of the register lose nothing: different registers stay different. |
| Crc32.TableStep | trash/jdbx_page_manager_old.c:40-51 | One table lookup does what feeding the eight bits of a byte to the bit-serial register does. |
| Crc32.Table.Init | trash/jdbx_page_manager_old.c:26-37 | Fills the table once; every entry is the bit-serial remainder of its index. |
| Crc32.Table.Compute | trash/jdbx_page_manager_old.c:40-51 | The table-driven checksum is the bit-serial CRC-32 with polynomial 0xEDB88320 (section 8 of RFC 1952), for every byte sequence. |
| Crc32.BurstChangesRegister | trash/jdbx_page_manager_old.c:40-51 | Feeding two different runs of at most 32 bits to one register gives different registers. |
| Crc32.BurstDetected | trash/jdbx_page_manager_old.c:40-51 | Two messages that differ only in a window of at most four bytes, wherever it lies, have different checksums. |
| Crc32.LoadedStored | trash/jdbx_page_manager_old.c:54-58 | A checksum is read back from its four little-endian bytes. |
| Crc32.Residue | trash/jdbx_page_manager_old.c:40-51 | The empty message has checksum 0, and every message followed by its own checksum has the checksum 0x2144DF1C, so the register is preset and the result complemented. |
| PageAllocation.AllocKeepsInvIff | trash/jdbx_page_manager_old.c:455-528 | An allocation keeps the invariant if and only if the growth of a full file stays inside the reserved bitmap pages or does not happen; it fails exactly when nothing is free and the file cannot grow, and hands out a page that was neither in use nor reserved. |
| PageAllocation.FreeKeepsInvIff | trash/jdbx_page_manager_old.c:531-554 | A free keeps the invariant if and only if the id is out of range, or the page is in use and not reserved. |
| PageAllocation.CountDecides | trash/jdbx_page_manager_old.c:427-452 | No page is free exactly when the cached count is zero. |
| PageAllocation.GrowthIsATenth | trash/jdbx_page_manager_old.c:460-467 | A full file grows by a tenth of its pages, rounded down, and by 100 when that is more. |
| PageAllocation.RunKeepsInvIff | trash/jdbx_page_manager_old.c:455-554 | In any run of allocations, growths and frees, count, bounds and reserved pages are right throughout if and only if every call was safe. |
| PageAllocation.InUseUntilFreed | trash/jdbx_page_manager_old.c:455-554 | A page in use stays so until a free of that page. |
| PageAllocation.NeverHandedOutTwice | trash/jdbx_page_manager_old.c:455-554 | Between two allocations of one page in a run of safe calls lies a free of it. |
| PageAllocation.HandedOutIsNotReserved | trash/jdbx_page_manager_old.c:455-554 | No run of safe calls hands out the header, the bitmap or the root directory. |
| PageAllocation.LowestPageIsTaken | trash/jdbx_page_manager_old.c:427-554 | In a run of safe calls from a new file the circular search from the hint always takes the lowest free page, and the first new one when no page is free. |
| PageManager.SetBit | trash/jdbx_page_manager_old.c:132-137 | Setting a bit of a 64-bit word sets that bit and no other. |
| PageManager.ClearBit | trash/jdbx_page_manager_old.c:536-541 | Clearing a bit of a 64-bit word clears that bit and no other. |
| PageManager.FreshHeaderOpens | trash/jdbx_page_manager_old.c:296-346 | A header written with its own checksum passes the checks made at open. |
| PageManager.DamagedHeaderRefused | trash/jdbx_page_manager_old.c:316-346 | After any change inside a window of at most four checksummed bytes, the header is refused. |
| PageManager.OpenRequires | trash/jdbx_page_manager_old.c:298-346 | A header that opens has the magic "JDBX", version 2 and the checksum of its prefix. |
| PageManager.HeaderReadsBack | src/include/storage/jdbx.h:39-57 | Every field of the header is read back from its own place. |
| PageManager.BitmapCovers | trash/jdbx_page_manager_old.c:73-77 | The bitmap pages of a new file have a bit for every page and leave room for the root directory. |
| PageManager.BitmapIsSmallest | trash/jdbx_page_manager_old.c:73-77 | One bitmap page less would not cover the pages. |
| PageManager.Manager.constructor | trash/jdbx_page_manager_old.c:80-159 | A new file is valid, and exactly header, bitmap and root directory are in use. |
| PageManager.Manager.Format | trash/jdbx_page_manager_old.c:118-148 | Checksum, reserved bits and root directory of a new file make it valid. |
| PageManager.Manager.UpdateHeaderChecksum | trash/jdbx_page_manager_old.c:54-58 | Afterwards the header opens. |
| PageManager.Manager.MarkReserved | trash/jdbx_page_manager_old.c:132-137 | The loop over the reserved pages sets their bits and no others. |
| PageManager.Manager.ScanWord | trash/jdbx_page_manager_old.c:435-448 | The lowest free page of one word, or none when the word has none below the end of the file. |
| PageManager.Manager.FindFreePage | trash/jdbx_page_manager_old.c:427-452 | Zero exactly when no page is free, whatever the hint; otherwise the first free page in the circle of words that starts at the hint. |
| PageManager.Manager.AllocPage | trash/jdbx_page_manager_old.c:455-528 | The words, count, hint, header and checksum take the allocation step of the specification and stay valid. |
| PageManager.Manager.Extend | trash/jdbx_page_manager_old.c:460-501 | Growth adds a tenth, and at least 100 pages, all free, and keeps everything valid. |
| PageManager.Manager.FreePage | trash/jdbx_page_manager_old.c:531-554 | Takes the free step of the specification; the file stays valid if and only if that free was safe. |
| PageManager.Manager.MarkCheckpoint | trash/jdbx_page_manager_old.c:642-659 | A checkpoint records the transaction and changes nothing the allocator sees. |
| PageManager.TurnsAreWords | trash/jdbx_page_manager_old.c:430-434 | The modular index of round i visits exactly the word whose turn is i. |
| WriteAheadLog.DecodeEncode | trash/jdbx_page_manager_old.c:601-616 | A log record, laid out in the order of the assignments, is determined by its bytes. |
| WriteAheadLog.LogRoundTrip | trash/jdbx_page_manager_old.c:574-622 | The bytes before the offset are whole records and give back exactly the records written. |
| WriteAheadLog.RecordsSealed | trash/jdbx_page_manager_old.c:601-612 | Every record in the region, wherever it lies, has the magic number, the page size, and the checksum of the image that follows. |
| WriteAheadLog.UndoLeavesOldest | trash/jdbx_page_manager_old.c:574-622 | Writing images back from newest to oldest leaves every page with its oldest logged image. |
| WriteAheadLog.OneDoublingIff | trash/jdbx_page_manager_old.c:583-599 | One doubling always makes room if and only if the region holds one record. |
| WriteAheadLog.Log.constructor | trash/jdbx_page_manager_old.c:162-255 | A new log is empty. |
| WriteAheadLog.Log.GetPageForWrite | trash/jdbx_page_manager_old.c:574-622 | On success exactly one record with the page's current image follows the old ones; it fails only for a bad id, or without room and without growth, and then logs nothing; the region doubles exactly when a record no longer fits; the memory is that of the specified call. |
| WriteAheadLog.Log.WritePage | trash/jdbx_page_manager_old.c:557-571 | A caller's change goes to the page and nowhere else. |
| WriteAheadLog.Log.TakeCheckpoint | trash/jdbx_page_manager_old.c:642-659 | The log is emptied and cleared, and the current pages become the ones to restore. |
| WriteAheadLog.LoggedIsScheduled | trash/jdbx_page_manager_old.c:574-659 | Which pages are in the log is decided by the schedule of calls alone, and without an early write the oldest image of a page is the one of the last checkpoint. |
| WriteAheadLog.EarlyWriteIsLost | trash/jdbx_page_manager_old.c:574-659 | After any schedule with an early write of a page, there are contents for which undoing leaves what was written instead of what the checkpoint had. |
| WriteAheadLog.RestoredIff | trash/jdbx_page_manager_old.c:574-659 | For every schedule of get, write and checkpoint calls, a page is restored for all written contents if and only if no write of it since the last checkpoint precedes its first successful get. |
| SizeClasses.GetSizeClass | trash/buffer_pool_enterprise_duplicate.c:324-331 | The loop finds the one class whose bound is the smallest not exceeded. |
| SizeClasses.ClassesDouble | trash/buffer_pool_enterprise_duplicate.c:97-99 | The bounds of the small classes are the powers of two from 8 to 4096. |
| SizeClasses.LessThanHalfIsWasted | trash/buffer_pool_enterprise_duplicate.c:324-331 | From 9 bytes on a class never has room for twice the size it serves. |
| SizeClasses.SlabIsFull | trash/buffer_pool_enterprise_duplicate.c:357-360 | A slab is cut into as many blocks as fit. |
| SizeClasses.FreedToItsClassIff | trash/buffer_pool_enterprise_duplicate.c:264-278 | The class computed at free from the stored 32-bit size is the class the block came from if and only if the size fits, or its remainder still maps directly. |
| SizeClasses.UserAreaFitsIff | trash/buffer_pool_enterprise_duplicate.c:184-198 | Header and user area fit the block if and only if adding the header does not wrap. |
| BufferPool.AddSlabOk | trash/buffer_pool_enterprise_duplicate.c:334-375 | Cutting a fresh mapping into blocks keeps all blocks aligned, inside their mappings and apart. |
| BufferPool.LiveBlockFits | trash/buffer_pool_enterprise_duplicate.c:174-233 | The user area of a live block ends inside its block. |
| BufferPool.LiveAreasApart | trash/buffer_pool_enterprise_duplicate.c:174-233 | User areas of live blocks overlap neither each other nor any free block. |
| BufferPool.LinkIsNotMagic | trash/buffer_pool_enterprise_duplicate.c:378-401 | A free-list link over a block's first word never looks like a live block's magic number. |
| BufferPool.PopFree | trash/buffer_pool_enterprise_duplicate.c:334-340 | Taking the head off a class's list keeps every list acyclic, duplicate-free and of its class. |
| BufferPool.PushFree | trash/buffer_pool_enterprise_duplicate.c:378-385 | So does pushing a freed block. |
| BufferPool.FirstWords | trash/buffer_pool_enterprise_duplicate.c:388-401 | In a consistent pool the magic number in a block's first word tells exactly whether it is live. |
| BufferPool.TrackFront | trash/buffer_pool_enterprise_duplicate.c:404-415 | Linking a block in front keeps the doubly linked list well formed. |
| BufferPool.Untracked | trash/buffer_pool_enterprise_duplicate.c:418-432 | Unlinking any element keeps it well formed and removes just that element. |
| BufferPool.InUseWithout | trash/buffer_pool_enterprise_duplicate.c:254-257 | Removing one block from the books lowers the bytes in use by its stored size. |
| BufferPool.Pool.constructor | trash/buffer_pool_enterprise_duplicate.c:110-129 | A new pool is valid and empty. |
| BufferPool.Pool.CarveSlab | trash/buffer_pool_enterprise_duplicate.c:357-366 | The loop links all blocks of a slab into one null-terminated chain and changes nothing else. |
| BufferPool.Pool.AllocFromSizeClass | trash/buffer_pool_enterprise_duplicate.c:334-375 | The head of the list, or the first block of a new slab; nothing changes when neither is to be had. |
| BufferPool.Pool.FreeToSizeClass | trash/buffer_pool_enterprise_duplicate.c:378-385 | The block goes to the front of its class's list. |
| BufferPool.Pool.Track | trash/buffer_pool_enterprise_duplicate.c:404-415 | The leak list gains the block in front. |
| BufferPool.Pool.Untrack | trash/buffer_pool_enterprise_duplicate.c:418-432 | The leak list loses the block and keeps the others in order. |
| BufferPool.Pool.Alloc | trash/buffer_pool_enterprise_duplicate.c:174-233 | Keeps the pool valid (blocks split exactly between free lists and live blocks, all counters in balance); one new live block of the size asked, counted once, none disturbed; null exactly for size 0 or without memory. |
| BufferPool.Pool.Free | trash/buffer_pool_enterprise_duplicate.c:236-279 | Aborts if and only if the pointer is not a live block or its canary was written over, so on every double free of a small block; otherwise the block, poisoned in its whole user area, leaves the leak list and returns to the class it came from, and all other live blocks keep their headers and contents. |
| BufferPool.Pool.Validate | trash/buffer_pool_enterprise_duplicate.c:388-401 | Aborts exactly when the block is not live or its canary was written over, and counts one corruption then. |
| BufferPool.Pool.Realloc | trash/buffer_pool_enterprise_duplicate.c:294-321 | A growing realloc keeps the old contents in front and frees the old block; without memory, or when shrinking, nothing changes; all other live blocks keep their headers, canaries and contents. |
| PeakCounter.FreesAreNeverBlocked | trash/buffer_pool_enterprise_duplicate.c:254-257 | Where the counter balances the blocks, it is positive whenever there is a block to free, so the unguarded decrement never wraps. |
| PeakCounter.StepKeeps | trash/buffer_pool_enterprise_duplicate.c:217-224 | No step of any thread lowers the peak or undoes a finished thread. |
| PeakCounter.PeakCoversSamples | trash/buffer_pool_enterprise_duplicate.c:217-224 | In every interleaving of the compare-and-swap loop the peak never falls and ends at or above what each finished thread sampled. |
| PeakCounter.PeakRightIff | trash/buffer_pool_enterprise_duplicate.c:213-257 | For n threads and any number of blocks live before, every run that finishes ends with a peak that covers all that was ever active if and only if n is zero, or the peak was at least that number plus n, or a single thread allocates the only block. |
| KeyOrder.CompareIsDictionaryOrder | trash/duplicate-implementations-2025-06-12/skiplist_simple_version.c:14-19 | Comparing common prefixes and then lengths is the dictionary order, and is zero only for equal keys. |
| KeyOrder.TotalOrder | trash/duplicate-implementations-2025-06-12/skiplist_simple_version.c:14-19 | The comparison is a total order. |
| Entries.FindAfterInsert | trash/duplicate-implementations-2025-06-12/skiplist_simple_version.c:59-146 | After an insert a search for any key gives what it gave before, and the new value only for a key that was absent. |
| Entries.WalkMissesKey | trash/duplicate-implementations-2025-06-12/skiplist_simple_version.c:66-87 | On a sorted list the written walk never stops before an equal key, so the update and removal branches change nothing. |
| Entries.FirstWriterWins | trash/duplicate-implementations-2025-06-12/skiplist_simple_version.c:59-191 | After any run of inserts, failed inserts and deletes, with the branches as written, the index is sorted, has one entry per successful insert, and answers with the first value ever inserted under the key. |
| SkipList.SuccRaised | trash/duplicate-implementations-2025-06-12/skiplist_simple_version.c:104-107 | How a new tower changes the successor of every other tower, on every level. |
| SkipList.RelinkedIsLinked | trash/duplicate-implementations-2025-06-12/skiplist_simple_version.c:104-107 | The relinking loop leaves every level linking exactly the towers that reach it, so each level is a subsequence of the one below. |
| SkipList.List.constructor | trash/duplicate-implementations-2025-06-12/skiplist_simple_version.c:21-43 | A new list is valid and empty. |
| SkipList.List.WalkBefore | trash/duplicate-implementations-2025-06-12/skiplist_simple_version.c:120-132 | Search's walk on one level ends at the last tower before the key. |
| SkipList.List.Search | trash/duplicate-implementations-2025-06-12/skiplist_simple_version.c:114-146 | For any tower heights the top-down search gives what a linear scan of the bottom level gives. |
| SkipList.List.FindUpdates | trash/duplicate-implementations-2025-06-12/skiplist_simple_version.c:62-77 | The update array holds, on each level, the last tower whose key is not greater. |
| SkipList.List.Insert | trash/duplicate-implementations-2025-06-12/skiplist_simple_version.c:59-112 | Keeps every level sorted and linked, level between 1 and the maximum, size equal to the length; the entry goes after all equal keys; without memory nothing changes. |
| SkipList.List.Delete | trash/duplicate-implementations-2025-06-12/skiplist_simple_version.c:148-191 | The delete as written always reports failure and changes nothing. |
| SkipList.List.Run | trash/duplicate-implementations-2025-06-12/skiplist_simple_version.c:59-191 | Any run of calls on an empty list, with any tower heights, leaves the entries of the specified run and answers true exactly for successful inserts; every key then finds its first successful insert. |
| IntendedIndex.IntendedFinds | trash/duplicate-implementations-2025-06-12/skiplist_simple_version.c:59-191 | In the intended form, with search's walk before the same branches, a search after any run finds exactly the keys the calls describe, each once, with the value described unless a failed update of the key lost it. |
| IntendedIndex.IntendedIsMapIff | trash/duplicate-implementations-2025-06-12/skiplist_simple_version.c:79-87 | At every point of a run the intended index is the map the calls describe if and only if no insert of a present key runs out of memory. |
| IntendedIndex.WrittenAgreesIff | trash/duplicate-implementations-2025-06-12/skiplist_simple_version.c:59-191 | For a schedule of calls, a search of the index as written gives what the map described has, for all values, if and only if no successful insert and no delete of the key follows its first successful insert. |
| SkipList.Iterator.Next | trash/duplicate-implementations-2025-06-12/skiplist_simple_version.c:210-232 | Entries come out one by one in key order, then nothing. |
| Documents.MatchesQuery | trash/database_jdbx_only.c:985-1021 | True exactly when the document has every field of the query with the query's value. |
| Documents.MatchesIff | trash/database_jdbx_only.c:985-1021 | A document matches exactly when every field lookup the query answers, the document answers alike. |
| Documents.MatchingConcat | trash/database_jdbx_only.c:975-1031 | Entries are considered one after the other, in order, |
| Documents.MatchingOne | trash/database_jdbx_only.c:980-1029 | each giving its document when that matches and otherwise nothing; a null document never matches. |
| Documents.Find | trash/database_jdbx_only.c:958-1031 | The matching documents in key order, without the first skip and with at most limit of the rest, or all when limit is not positive. |
| Documents.PagesConcatenate | trash/database_jdbx_only.c:958-1031 | Successive pages of any positive size give each match of an unchanged collection once, in order. |
| Documents.PageWithoutLimit | trash/database_jdbx_only.c:976-1029 | Without a positive limit all but the skipped documents are returned, and a limit only cuts that off. |
| Documents.FoundIsFirstAdded | trash/database_jdbx_only.c:571 | After any run of inserts, updates and deletes the search answers with the document first added under the id. |
| Documents.FoundWasFreed | trash/database_jdbx_only.c:796-890 | That document was freed once for each update and delete of the id since it was added, so it is a freed one exactly when there was any, and freed twice exactly when there were two. |
| Documents.UpdateLeavesFreed | trash/database_jdbx_only.c:796-890 | Right after an update or a delete the search answers as before, and with a freed document if and only if the id was present. |
| LibraryCreation.SearchByName | trash/database_jdbx_only.c:124-129 | In every reachable state, when names that shorten alike fit the field, what the unlocked search by the full name finds a search by the shortened key finds too; for a call that has no result yet the two agree completely. |
| LibraryCreation.StoredIsLongest | trash/database_jdbx_only.c:152 | The kept name is the longest beginning of the name that leaves room for its terminator. |
| LibraryCreation.StepKeepsInv | trash/database_jdbx_only.c:121-172 | Each atomic step of any caller keeps the protocol's invariant, and the index only grows. |
| LibraryCreation.OneLibraryPerName | trash/database_jdbx_only.c:121-172 | When names that shorten alike fit the field, in every interleaving no entry is replaced, no key is inserted twice, and each non-null result is the one library of its name at every later moment. |
| LibraryCreation.LongNameInsertsTwice | trash/database_jdbx_only.c:152-157 | Two calls whose names shorten alike, one of them too long, insert two libraries and return different ones. |
| LibraryCreation.OnePerKeyIff | trash/database_jdbx_only.c:121-172 | Every run of the given calls has one library per key if and only if names that shorten alike fit the field. |
| LockOrder.DescendOrdered | trash/database_jdbx_only.c:1060-1079 | Hand-over-hand from the global lock to a collection acquires in rank order, does its work in a mode that allows it, and ends with nothing held, on each exit. |
| LockOrder.InitOrdered | trash/database_jdbx_only.c:227-367 | So does initialisation, which creates libraries and collections under the global lock. |
| LockOrder.ProgramOrdered | trash/database_jdbx_only.c:121-1398 | Every way through every operation acquires locks in rising rank, uses what a lock guards only while holding it, changes it only while holding it for writing, and leaves none held. |
| LockOrder.WorkOfProgram | trash/database_jdbx_only.c:121-1398 | Between its locks every operation does what it is for, once and in order: inserts, updates, deletes and index changes change their collection, creations change their library, and all others only look. |
| LockOrder.DescendNeverLetsGo | trash/database_jdbx_only.c:1060-1079 | A descent holds something from its first lock to its last release, takes the library under the global lock, and the collection under the library it was found in. |
| LockOrder.LookupNeverLetsGo | trash/database_jdbx_only.c:627-651 | So does a lookup, from the library on. |
| LockOrder.MoveKeepsInv | trash/database_jdbx_only.c:617-651 | Each step of any thread keeps readers and writers apart and the order intact. |
| LockOrder.SectionsExclude | trash/database_jdbx_only.c:121-1398 | In every reachable state of any threads doing any operations, a thread about to change a collection's documents or a library's collections holds its lock for writing and nobody else holds it, and while a thread looks nobody else holds it for writing. |
| LockOrder.SomeoneMoves | trash/database_jdbx_only.c:617-711 | Following the holders from any waiting thread leads to a thread that can act. |
| LockOrder.NoDeadlock | trash/database_jdbx_only.c:121-1398 | For any number of threads each doing any operations, no reachable state is a deadlock, whether or not readers queue behind writers, and runs are finite. |
| Bootstrap.StepKeepsInv | src/components/api/api_auth.c:89-241 | Until the flag is set the mutex excludes, and once it is set nobody bootstraps: each step keeps this. |
| Bootstrap.OneBootstrap | src/components/api/api_auth.c:89-241 | In every interleaving all insertions ever tried are one request's, each once, including after the second unlock. |
| Bootstrap.RoleAndUserFirst | src/components/api/api_auth.c:105-111 | No request inserts anything or marks the bootstrap as done unless it made the admin role and then the admin user. |
| Bootstrap.DoneIsDone | src/components/api/api_auth.c:168-173 | In every run both flags are down before the bootstrap is marked as done, so a later request goes straight on. |
| Bootstrap.ExclusiveIff | src/components/api/api_auth.c:89-238 | Requests exclude each other in every state of every run if and only if there is nothing to bootstrap or there are fewer than three of them. |
| Bootstrap.SecondUnlockBreaksExclusion | src/components/api/api_auth.c:191-238 | From any start with something to bootstrap and at least three requests, a run in which the second unlock puts two of them into the critical section. |
| CrossReferences.RewrittenOne | src/components/api/api_rbac.c:630-739 | On a linked relation the rewrite gives every list exactly: without the id, and with it last if requested. |
| CrossReferences.ExistingConcat | src/components/api/api_rbac.c:682-703 | Requested ids are kept one after the other, in order, each exactly when its document exists. |
| CrossReferences.RewriteKeepsLinkedIff | src/components/api/api_rbac.c:630-739 | On a linked relation (symmetric, without duplicates) the rewrite keeps it symmetric, and keeps it linked if and only if no existing id is requested twice. |
| CrossReferences.RewriteKeepsSymmetricIff | src/components/api/api_rbac.c:630-739 | On any symmetric relation, duplicates or not, the rewrite keeps it symmetric if and only if each list the id is to leave names it no more often than the id's own list names that document. |
| CrossReferences.TwoRewritesIff | src/components/api/api_rbac.c:1597-1714 | After one side asks for a list and then the other for another, from a linked relation, the two sides agree if and only if the first list named the second document at most once, or the second list names the first document again. |
| Json.GetPut | src/components/utils/json.c:227-275 | Setting a member changes the lookup of that key and of no other, and never repeats a key. |
| Json.PutAt | src/components/utils/json.c:227-261 | Setting a member replaces it where it stands, or appends it. |
| Json.Object.Set | src/components/utils/json.c:227-261 | The loop replaces the member with the key, or appends one. |
| Json.Object.Remove | src/components/utils/json.c:321-341 | The first member with the key goes and the others keep their order. |
| Json.Object.Clear | src/components/api/api_rbac.c:1539-1544 | The loop whose 64-bit index wraps below zero ends, with no member left. |
| Json.IdArray.ShiftDown | src/components/api/api_rbac.c:659-662 | The inner loop removes one position in place and keeps the order of the rest. |
| Json.IdArray.RemoveFirst | src/components/api/api_rbac.c:654-665 | The in-place loops remove the first occurrence, if any. |
| Json.IdArray.Append | src/components/utils/json.c:149-168 | Appends one item, moving to a doubled array when full. |
| Rbac.MaskReadsBack | src/components/api/api_rbac.c:1562-1582 | The four flags can be read back from the stored mask, which is zero exactly when none is set. |
| Rbac.GrantedIs | src/components/api/api_rbac.c:1546-1582 | A number is stored as it is, whole or not, and flags as the sum of 1, 2, 4 and 8 for those set, unless none is. |
| Rbac.GrantedAllGet | src/components/api/api_rbac.c:1538-1584 | After the rewrite exactly the requested permissions that stand for something are there, each as a number, and nothing older. |
| Rbac.IdsTaken | src/components/api/api_rbac.c:1649-1660 | Strings count as ids for both handlers, objects with an id only for roles. |
| Rbac.IdsConcat | src/components/api/api_rbac.c:682-686 | Ids are taken one element after the other, in order. |
| Rbac.UserUpdateLimits | src/components/api/api_rbac.c:467-783 | Whatever a user update asks: a requester who may write neither himself nor other users changes nothing, one without admin rights changes no list on either side, and no other user and no role's name or permissions ever change. |
| Rbac.UserUpdateChanges | src/components/api/api_rbac.c:547-621 | A stored username changes only to a requested one of at least 3 characters, a stored hash only to the hash of a requested password of at least 8, and a list of roles only for an administrator who sends one. |
| Rbac.UserUpdateAccepted | src/components/api/api_rbac.c:467-783 | A user update is accepted if and only if every member sent is acceptable and allowed, and then leaves exactly the members sent, and the old ones elsewhere. |
| Rbac.UserRefusals | src/components/api/api_rbac.c:475-621 | Each other status is given for its own fault, and for no request with an earlier one. |
| Rbac.RoleUpdateLimits | src/components/api/api_rbac.c:1429-1782 | Without the permission a role update changes nothing, and none changes another role or a user's name or hash. |
| Rbac.RoleUpdateChanges | src/components/api/api_rbac.c:1484-1714 | A role's name changes only to a requested one of at least 2 characters, its permissions and users only when they are sent. |
| Rbac.RoleUpdateAccepted | src/components/api/api_rbac.c:1429-1782 | When a role update is accepted, and exactly what it then leaves in the role. |
| Rbac.RoleRefusals | src/components/api/api_rbac.c:1429-1530 | Each other status of a role update, for its own fault. |
| Rbac.ConflictIff | src/components/api/api_rbac.c:557-574 | While names are distinct, a new name is refused as a conflict if and only if another document of the kind has it. |
| Rbac.NoRightsNoLists | src/components/api/api_rbac.c:608-621 | In a run of requests without the rights for it no list on either side ever changes. |
| Rbac.HashesComeFrom | src/components/api/api_rbac.c:580-606 | After any run every user's hash is the one of the start, or was set by an allowed request for that user with a password of at least 8 characters. |
| Rbac.Store.Grant | src/components/api/api_rbac.c:1546-1584 | The loop over the requested permissions builds exactly those. |
| Rbac.Store.LeaveRoles | src/components/api/api_rbac.c:630-677 | The user leaves the list of each role it was in, and nothing else in any role changes. |
| Rbac.Store.EnterRoles | src/components/api/api_rbac.c:679-739 | Each requested role that exists enters the user's list, and the user enters its list unless it is there. |
| Rbac.Store.UpdateUser | src/components/api/api_rbac.c:467-783 | The status for each kind of refusal, no document changed by a refused update, and all documents after an accepted one. |
| Rbac.Store.LeaveUsers | src/components/api/api_rbac.c:1597-1643 | The role leaves the list of each user it had, and nothing else in any user changes. |
| Rbac.Store.EnterUsers | src/components/api/api_rbac.c:1645-1714 | Each requested user that exists, named by a string or by an object's id, is linked on both sides. |
| Rbac.Store.UpdateRole | src/components/api/api_rbac.c:1429-1782 | The same for roles: statuses, refused updates change nothing, and all documents after an accepted one. |
| Rbac.ServedKeepsNames | src/components/api/api_rbac.c:547-577 | No request of either kind makes two users or two roles share a name. |
| Rbac.ServedKeepsLinkedIff | src/components/api/api_rbac.c:547-772 | A request keeps the cross-references linked if and only if it is refused or wants no existing document twice. |
| Rbac.ServedKeepsSymmetricIff | src/components/api/api_rbac.c:547-772 | From any symmetric state a request keeps the cross-references symmetric if and only if it is refused or releases its target from every list it is to leave. |
| Rbac.RunSymmetricIff | src/components/api/api_rbac.c:1484-1772 | Over any run of requests, duplicates or not, the cross-references are symmetric in every state if and only if every accepted request releases its target. |
| Rbac.RunKeeps | src/components/api/api_rbac.c:1484-1772 | Over every run of accepted and refused requests that name no id twice, users and roles stay linked both ways and names stay distinct. |
| QueryString.Decode | src/components/api/api_documents.c:74-100 | The index loop writes the decoded value inside a buffer of the value's own length and a terminator, so decoding never lengthens; the text ends at the first NUL. |
| QueryString.HexByteIsStrtol | src/components/api/api_documents.c:80-90 | The byte for two characters is what strtol with base 16 makes of them, white space and signs included, exactly when it consumes both. |
| QueryString.DecodedPlain | src/components/api/api_documents.c:79-97 | Text without percent and plus signs stays as it is. |
| QueryString.DecodedLiteral | src/components/api/api_documents.c:80-97 | So does a percent sign that two such characters do not follow; a plus sign is always a space. |
| QueryString.TextEndsAtNul | src/components/api/api_documents.c:98-99 | The stored text is the decoded value up to its first NUL. |
| QueryString.NextToken | src/components/api/api_documents.c:66-106 | strtok's next non-empty token and what is left. |
| QueryString.Parse | src/components/api/api_documents.c:51-111 | One member per token with an equals sign, a later one replacing an earlier one of the same key; nothing for an empty query. |
| QueryString.DecodeRendered | src/components/api/api_documents.c:74-98 | Decoding any valid encoding of a NUL-free value gives the value, with hex digits of either case and `+` or `%20` for a space (section 2.1 of RFC 3986). |
| QueryString.QueryRoundTrip | src/components/api/api_documents.c:51-111 | Any pairs with distinct clean keys come back from any rendering of them, in order; only the empty list gives no object. |
| QueryString.LastPairCounts | src/components/api/api_documents.c:64-107 | For any rendered pairs, keys repeated or not, the lookup of a key gives what its last pair means, and no key is repeated. |
| QueryString.ParsedInTurn | src/components/api/api_documents.c:64-107 | What stands before an ampersand is parsed first, whatever it is, and what follows it then. |
| QueryString.TokenWithoutValue | src/components/api/api_documents.c:66-106 | A token without an equals sign changes nothing, wherever it stands between ampersands. |
| CollectionPath.ParseCollectionPath | src/components/api/api_documents.c:541-592 | The moving pointer computes the specified location or refuses. |
| CollectionPath.ParsedIff | src/components/api/api_documents.c:541-592 | A path is accepted with a location if and only if it is one of the two formats of that location with slash-free names, so each path has at most one location. |
| Regression.FitExistsIff | share/examples/js-examples/metrics_temporal_analysis.js:285-293 | There is a line exactly when two points have different x values. |
| Regression.SpreadPositiveIff | share/examples/js-examples/metrics_temporal_analysis.js:292 | The denominator is never negative, and positive exactly for two different x values. |
| Regression.FitIsBest | share/examples/js-examples/metrics_temporal_analysis.js:285-300 | The computed line has the least sum of squared residuals of all lines, and no other line has it. |
| Regression.RSquaredExistsIff | share/examples/js-examples/metrics_temporal_analysis.js:295-302 | R squared exists exactly when neither coordinate is constant. |
| Regression.RSquaredInUnit | share/examples/js-examples/metrics_temporal_analysis.js:295-302 | R squared is in [0, 1], is 1 exactly when all points are on the line, and 0 exactly when the line is the level of the mean. |
| Regression.SquaredCorrelation | share/examples/js-examples/metrics_temporal_analysis.js:287-302 | R squared is the square of the correlation, computed from the raw sums. |
| Regression.ForecastLinearTrend | share/examples/js-examples/metrics_temporal_analysis.js:273-328 | Insufficient, undefined, or the best line with its confidence and one non-negative prediction on it per period. |
| Regression.ClosedForms | share/examples/js-examples/metrics_resource_monitor.js:119-124 | The closed-form sums are the true sums over 0 to n-1. |
| Regression.TrendIsRegression | share/examples/js-examples/metrics_resource_monitor.js:119-126 | From two values on the denominator is positive and the slope is that of the best line. |
| Anomalies.DetectAnomalies | share/examples/js-examples/metrics_temporal_analysis.js:165-205 | Reports exactly the positions beyond the threshold, in order, with deviation and severity; none for fewer than ten values. |
| Anomalies.BeyondIff | share/examples/js-examples/metrics_temporal_analysis.js:177-192 | The positions reported are exactly those of the values more than the threshold above or below the centre, in ascending order. |
| Anomalies.MeanIsBest | share/examples/js-examples/metrics_temporal_analysis.js:171 | The mean is the one centre with the least sum of squared differences. |
| Anomalies.DeviationFromSums | share/examples/js-examples/metrics_temporal_analysis.js:154-162 | The squared deviation is the mean of the squares less the square of the mean. |
| Anomalies.BeyondAdds | share/examples/js-examples/metrics_temporal_analysis.js:177-192 | Each reported value adds more than the squared threshold to the sum of squared differences. |
| Anomalies.Chebyshev | share/examples/js-examples/metrics_temporal_analysis.js:165-205 | The number reported times the squared sensitivity is at most the number of values, and less when any is reported. |
| Anomalies.ZeroDeviationIff | share/examples/js-examples/metrics_temporal_analysis.js:154-205 | The deviation is zero exactly when all values are equal, and then nothing is reported. |
| Percentiles.OneOrder | share/examples/js-examples/metrics_temporal_analysis.js:12 | There is only one ascending order of the values. |
| Percentiles.CalculatePercentiles | share/examples/js-examples/metrics_temporal_analysis.js:7-27 | One entry per requested percentile, each the specified one. |
| Percentiles.PercentileMonotone | share/examples/js-examples/metrics_temporal_analysis.js:15-24 | A larger p never gives a smaller percentile. |
| Percentiles.PercentileRange | share/examples/js-examples/metrics_temporal_analysis.js:15-24 | All percentiles lie between the minimum, at 0, and the maximum, at 100. |
| Percentiles.BetweenRanks | share/examples/js-examples/metrics_temporal_analysis.js:15-24 | In the ascending order the percentile moves in a straight line from each value to the next, the i-th value being at 100 i / (n - 1). |
| Percentiles.FewValues | share/examples/js-examples/metrics_temporal_analysis.js:8-18 | A single value is every percentile, and of no values every percentile is 0. |
| Percentiles.FiftyIsMedian | share/examples/js-examples/metrics_temporal_analysis.js:142-151 | Percentile 50 is the median for odd, even and zero lengths. |
| Percentiles.PercentileExistsIff | share/examples/js-examples/metrics_temporal_analysis.js:15-24 | The program reads inside the array exactly for p in [0, 100] or fewer than two values. |
| Percentiles.OrderDoesNotMatter | share/examples/js-examples/metrics_temporal_analysis.js:7-27 | Percentiles and median depend only on the values, not on their order. |

## Left out

- PageManager.Manager.AllocPage: growth beyond the bitmap pages reserved at creation is excluded, because the bits it sets then lie outside the bitmap; `PageAllocation.AllocKeepsInvIff` says that nothing else goes wrong.
- PageManager.HeaderPrefix: the header is laid out as src/include/storage/jdbx.h has it now; the five wal_* fields, which the old page manager never sets, are zero.
- PageManager.Manager.MarkCheckpoint: only the header part; `msync` and the other system calls are assumed to succeed or to change nothing.
- WriteAheadLog.DecodeEncode: the record layout is taken from the order of the assignments in `jdbx_get_page_for_write`, because the wal_entry_t it used is not part of this model (the one in src/include/storage/jdbx.h has other fields); the 4-byte magic number is a parameter, because JDBX_WAL_MAGIC is not part of this model either.
- WriteAheadLog.RestoredIff: undoing is a specification of what the log contains; the program has no recovery code.
- BufferPool.Pool.Alloc: sizes from 2^32 on are excluded, because the header then misstates the size; `SizeClasses.FreedToItsClassIff` says what happens to them.
- BufferPool.Pool.Free: the pointer must be null or be HEADER past the start of a block that is still mapped; the source file, line and thread fields of the header, and 64-bit wrap-around of the counters, are not modelled.
- BufferPool.Pool.Alloc: calls are one at a time; only the peak counter is modelled between threads, in `PeakCounter`.
- SkipList.List.Insert: the tower height is any height from 1 to the maximum, in place of the random one; whether values are stored by copy or by reference, and threads inside one call, are left out.
- Documents.Find: a query text that is not JSON gives an empty array before the loop; the loop runs on a list that nothing else changes meanwhile; projection and sorting are not implemented by the program either, and JSON values are compared by kind and text.
- Documents.FoundWasFreed: documents are told apart by the operation that made them, so an address that is handed out again is a new document; what reading a freed document gives, the update operators and the secondary indexes, which are keyed by field value alone, are left out.
- LibraryCreation.OneLibraryPerName: each skip list call is one step; collections are created under their library's write lock by the same pattern, and only their locks are modelled.
- LockOrder.SectionsExclude: what a section does is one step, a look or a change; the library index is searched without any lock, so its contents are not among what the locks are shown to guard (`LibraryCreation` has its protocol); the indexer, tracker and cache calls are left out, because their code is not part of this model.
- Bootstrap.OneBootstrap: what the role, user and actor helpers insert is one step each; an unlock by a thread that does not hold the mutex is taken to free it.
- Rbac.Store.UpdateUser: the path, the token, requests without any body and the shape of the response are left out; lists in documents hold ids only, and a missing list is an empty one; the response shows the documents as read before the final write.
- Rbac.Store.UpdateRole: each lookup returns a copy of a document and each write replaces it whole.
- QueryString.Parse: allocation failures, and bytes as anything but characters with their code, are left out.
- Regression.ForecastLinearTrend: dates, rounding and floating point are left out; numbers are exact reals.
- Anomalies.DetectAnomalies: the square root is a parameter that is exact; timestamps and the z-score are left out.
- Other parts of the repository (token handling, password hashing, sessions, the virtual layer, secondary indexes, the other metrics scripts, the clients) would only add easy members, or their code is not part of this model.
