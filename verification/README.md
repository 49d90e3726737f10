# Verified models of tp-advcpp

A Dafny model of the five components of the repository that carry state across calls, and proofs of
what they keep over all inputs, runs and interleavings.

- **Data bank** (`hw7/data_bank`): `DataFile` cuts a file of (key, value) entries into partitions,
  sorts each through a `std::map` into a temporary file, merges them through windowed cursors into
  image files, records the last key of every image, and answers `at(key)` from that directory and one
  binary search. Modules `Entries`, `OrderedMap`, `Partitions`, `SortPhase`, `Merging`, `DataFiles`,
  `Lookup`, `CacheFiles`.
- **HTTP worker** (`hw7/http`, of which `hw6/http` is a copy): a pool of recycled coroutines, the handler
  that runs in each of them, and the epoll worker that creates and resumes them. Modules `Coroutines`,
  `ClientHandlers`, `ServerWorkers`; printing and parsing of headers is in `HttpHeaders`.
- **Shared memory** (`hw5/shmem`): the bump allocator and the map behind two semaphores, as interleaved
  steps of any number of processes. Modules `SharedMemories`, `LockedMaps`.
- **Threaded logger** (`hw2/log`, of which `hw6/log` is a copy): producers, queue, worker and `stop` as
  interleaved steps. Module `Loggers`.

`Sequences` holds the facts about sequences, multiples and text that the others share.

## How the code is represented

- A file is a sequence of entries; offsets, window sizes and partition sizes are in bytes, and
  `entrySize` is a parameter. A mapping is the exact slice of the file. The value type is a finite
  plain-old-data type, so a value stands for its rank in the type's order.
- Classes and loops of the source are classes and loops here, and each method is tied by its `ensures`
  to a function or predicate about which the lemmas are proved. The open partitions are objects; the
  merge names them by their states.
- A coroutine is its frame. One resumption runs the handler from where it yielded to its next yield or
  its end; what the socket, the clock and the callback do in between is a parameter.
- The interleaving models make each access to shared data a step; a schedule is any sequence of steps.
- Exceptions are outcomes: `Option`, an error constructor, or a flag that ends the run.

## Where the code does not do what it is for

Each of these is proved: the exact condition, or a lemma at an input that shows it, or both.

- `binary_search` moves `begin` to `mid`, so it loops for ever on an absent key that is above the first
  entry of its image (`Lookup.HaltsExactly`, `DataFiles.LookupLoops`). A lookup therefore ends exactly when
  the key occurs, is above all keys, or has a number of smaller entries that fills whole images
  (`DataFiles.AnswerableExactly`). The search with `mid + ENTRY_SIZE` is a separate, repaired variant.
- The map of a partition drops repeated keys while the slices keep the data file's offsets. The temporary
  file is as long as the data exactly when no chunk repeats a key (`OrderedMap.SortedRunsFillFile`,
  `OrderedMap.RepeatedKeyLost`).
- The lookup window is not rounded to entries. Cursors stay on entry boundaries exactly when the window
  is a whole number of entries or covers the largest partition (`SortPhase.WindowFitsExactly`). With the
  20-byte payload of hw7/README.md and 4096-byte pages it is not (`SortPhase.WindowCutsEntry`).
- Image files are opened without truncation. They hold the images exactly when no earlier file of the
  same name was longer (`DataFiles.FilesExact`); what is left over is found by lookups
  (`DataFiles.StaleEntryFound`).
- The cache file is opened without truncation too. Even a reader that takes the name line off and stops
  at the end restores the directory exactly when what is left of an earlier cache file spells no record
  (`DataFiles.ReopenAsMeant`, `DataFiles.StaleDirectoryRead`).
- The cache reader gets a copy of the view from which the name line should be dropped, and adds a record
  after the last. It never reads back what was written (`CacheFiles.ReaderNeverRoundTrips`). What it reads
  instead is given for every name and every former content (`CacheFiles.ReaderExactly`), and so is every
  lookup through it (`DataFiles.ReopenedLookup`). For a name without ';' over no longer cache file, keys
  above the number that the name begins with (0 for most names) are found exactly if an image other than
  the first holds them (`DataFiles.ReopenedExactly`).
- The name line is written before the sort can fail, so the next start takes the failed build for a
  finished one (`DataFiles.WrittenIsRelevant`, `DataFiles.ReopenedAfterFailure`).
- A routine created for an event without `EPOLLIN` ends without erasing its client
  (`ServerWorkers.EventConsistent`, `ServerWorkers.EventWithoutInput`).
- `allocate` compares before it locks, so `n` processes can pass the end by up to `n - 1` requests, and do
  in some schedule (`SharedMemories.BoundAttained`). No run passes the end exactly if one process allocates,
  or no byte is free or asked for (`SharedMemories.SafeExactly`). Used through the map alone the region is
  never overrun (`LockedMaps.MapSerializable`).
- `deallocate` refuses a node that reaches the end of the region, and throws while `std::map` disposes of
  it, where nothing may throw: the process ends and the map's semaphore stays taken, so that no map
  operation is entered any more (`SharedMemories.GoneForGood`). Some run comes to that exactly if another
  process can take a byte between comparison and allocation and the region has room for a node
  (`SharedMemories.RefusedExactly`); through the map alone none does (`SharedMemories.MapNeverRefused`).
- `stop` does not wake the worker: `join` can return exactly when the worker is not waiting on an empty
  queue that no producer will fill (`Loggers.JoinReturnsExactly`).
- A producer past the test of `m_done` can push after the worker has left. The messages that are accepted
  and never logged are exactly those (`Loggers.LateNeverLogged`, `Loggers.AllLoggedExactly`).

## Model

| member | source | states |
|---|---|---|
| OrderedMap.EmplaceCorrect | hw7/data_bank/include/data_bank/external_sort/data_file.hpp:153-168 | emplacing keeps the nodes strictly sorted, adds one node for a new key and changes nothing for a present one |
| OrderedMap.SortChunkScan | hw7/data_bank/include/data_bank/external_sort/data_file.hpp:153-178 | the sorted chunk answers every lookup as a scan of the chunk in file order does |
| OrderedMap.SortChunkSize | hw7/data_bank/include/data_bank/external_sort/data_file.hpp:153-178 | the map keeps every entry if and only if the chunk repeats no key |
| OrderedMap.SortedRunsFillFile | hw7/data_bank/include/data_bank/external_sort/data_file.hpp:90-113 | the temporary file is as long as the data, and a permutation of it, if and only if no chunk repeats a key |
| OrderedMap.RepeatedKeyLost | hw7/data_bank/include/data_bank/external_sort/data_file.hpp:166 | of two entries with one key in a chunk the second is lost and the file is an entry short |
| OrderedMap.SortChunkIsSort | hw7/data_bank/include/data_bank/external_sort/data_file.hpp:153-178 | a chunk without repeated keys comes out as its sort by (key, value) |
| SortPhase.SliceIsSortedChunk | hw7/data_bank/include/data_bank/external_sort/data_file.hpp:90-113 | slice i of the temporary file, cut at the data file's offsets, is the sort of chunk i |
| SortPhase.WindowFitsExactly | hw7/data_bank/include/data_bank/external_sort/data_file.hpp:116-123 | all cursors stay on entry boundaries if and only if the window is whole entries or covers the largest partition |
| SortPhase.WindowCutsEntry | hw7/data_bank/include/data_bank/external_sort/data_file.hpp:118 | at entries of 28 bytes and pages of 4096 some cursor leaves the entry boundaries |
| SortPhase.WindowsDeliver | hw7/data_bank/include/data_bank/external_sort/data_file.hpp:116-123 | once windows are set the partitions have exactly the sorted chunks to deliver |
| SortPhase.MergeStart | hw7/data_bank/include/data_bank/external_sort/data_file.hpp:116-150 | before the first entry is taken the sorted chunks are a permutation of the data |
| SortPhase.MovedOnDelivers | hw7/data_bank/include/data_bank/external_sort/data_file.hpp:133-137 | moving one cursor on, or erasing it when it is exhausted, takes exactly its first entry off what is left |
| Partitions.AdvanceOne | hw7/data_bank/src/external_sort/partition.cpp:64-74 | a move of one entry advances the position by one entry, across windows too, and fails exactly at the end of the slice |
| Partitions.WindowedWalkIsSlice | hw7/data_bank/src/external_sort/partition.cpp:40-74 | reading and moving until a move fails yields the slice, once and in order, for every fitting window |
| Partitions.WindowAlignment | hw7/data_bank/src/external_sort/partition.cpp:40-74 | a cursor stays on entry boundaries if and only if the window is whole entries or covers the slice |
| Partitions.Partition.constructor | hw7/data_bank/src/external_sort/partition.cpp:8-13 | a new partition covers its slice and has no window |
| Partitions.Partition.SetLookupWindow | hw7/data_bank/src/external_sort/partition.cpp:40-61 | the whole new state and result, with the last window cut at the end of the slice |
| Partitions.Partition.MoveIterator | hw7/data_bank/src/external_sort/partition.cpp:64-74 | the whole new state and result, with a new window when the old one is passed |
| Partitions.Partition.CurrentKeyValue | hw7/data_bank/include/data_bank/external_sort/partition.hpp:28-38 | the first of the entries that the cursor has still to deliver |
| Merging.MergeTake | hw7/data_bank/include/data_bank/external_sort/data_file.hpp:131-146 | taking the least current entry keeps the output sorted, not above what is left, and conserves all entries |
| Merging.MergeDone | hw7/data_bank/include/data_bank/external_sort/data_file.hpp:125-149 | when nothing is left the output is the unique sort of the data |
| DataFiles.DataFile.ReadFromPartition | hw7/data_bank/include/data_bank/external_sort/data_file.hpp:153-168 | the loop over the mapped bytes builds the map of the chunk |
| DataFiles.DataFile.WritePartition | hw7/data_bank/include/data_bank/external_sort/data_file.hpp:171-178 | the nodes are appended in order |
| DataFiles.DataFile.ClampSize | hw7/data_bank/include/data_bank/external_sort/data_file.hpp:97-100 | the last partition is the rest of the file, every other one has the full size |
| DataFiles.DataFile.SortOnePartition | hw7/data_bank/include/data_bank/external_sort/data_file.hpp:97-111 | one more chunk is sorted into the temporary file and its slice recorded, unless the chunk is empty |
| DataFiles.DataFile.SortPartitions | hw7/data_bank/include/data_bank/external_sort/data_file.hpp:90-113 | the temporary file is the sorted chunks in order, the partitions tile the data file, and the phase fails only on empty partitions |
| DataFiles.DataFile.FindPartitionsCurrentMin | hw7/data_bank/include/data_bank/external_sort/data_file.hpp:187-199 | the entry found has the least current key and, among equal keys, the least value; of equal entries it is that of the first partition |
| DataFiles.DataFile.GenerateIndex | hw7/data_bank/include/data_bank/external_sort/data_file.hpp:253-262 | a numbered image is opened over what the file held, with a record of key 0 |
| DataFiles.DataFile.WriteEntry | hw7/data_bank/include/data_bank/external_sort/data_file.hpp:139-143 | the entry is appended to the image and its key becomes the image's directory key |
| DataFiles.DataFile.MergeOne | hw7/data_bank/include/data_bank/external_sort/data_file.hpp:131-146 | one round of the inner loop keeps the merge invariant and writes one entry |
| DataFiles.DataFile.FillImage | hw7/data_bank/include/data_bank/external_sort/data_file.hpp:125-146 | the size left never wraps; an image is full unless nothing is left, and never empty |
| DataFiles.DataFile.MergePartitions | hw7/data_bank/include/data_bank/external_sort/data_file.hpp:116-150 | the images are the sorted data cut at the partition size, recorded in directory, files and cache, and no partition is left |
| DataFiles.ImagesDone | hw7/data_bank/include/data_bank/external_sort/data_file.hpp:125-149 | full images whose concatenation the merge produced are the chunks of the sorted data |
| DataFiles.ImagesInOrder | hw7/data_bank/include/data_bank/external_sort/data_file.hpp:125-149 | one after another the images are a permutation of the data with keys that never decrease and, for one key, values that never decrease |
| Sequences.ChunksExact | hw7/data_bank/include/data_bank/external_sort/data_file.hpp:125-146 | the number of images is the quotient rounded up, all but the last are full, and the last is not empty |
| Sequences.ChunksTile | hw7/data_bank/include/data_bank/external_sort/data_file.hpp:90-113 | the pieces tile the whole with no gap or overlap, so the images in order do not depend on the partition size |
| DataFiles.FilesExact | hw7/data_bank/include/data_bank/external_sort/data_file.hpp:253-262 | image files hold exactly the images if and only if no earlier file of the name was longer |
| DataFiles.StaleEntryFound | hw7/data_bank/include/data_bank/external_sort/data_file.hpp:253-262 | a concrete leftover entry that a lookup finds although the data does not hold its key |
| DataFiles.RoundedUpCorrect | hw7/data_bank/include/data_bank/external_sort/data_file.hpp:44-47 | rounding yields the least whole number of entries not below the size, positive exactly for a positive size |
| DataFiles.DataFile.ExternalSort | hw7/data_bank/include/data_bank/external_sort/data_file.hpp:82-87 | both phases together, on data whose chunks repeat no key |
| DataFiles.DataFile.Open | hw7/data_bank/include/data_bank/external_sort/data_file.hpp:35-59 | which outcome each state of the cache file and partition size leads to, and what directory, files and cache then hold |
| Lookup.FindIndex | hw7/data_bank/include/data_bank/external_sort/data_file.hpp:202-213 | the first directory key that is not below the key sought |
| Lookup.HaltsExactly | hw7/data_bank/include/data_bank/external_sort/data_file.hpp:216-250 | on a sorted image the literal loop ends if and only if the image is empty, the key is present, or it is below the first entry |
| Lookup.BinarySearch | hw7/data_bank/include/data_bank/external_sort/data_file.hpp:216-250 | where the loop ends it finds the key exactly when present, with a value stored beside it, and is the run of the loop |
| Lookup.RepairedBinarySearch | hw7/data_bank/include/data_bank/external_sort/data_file.hpp:216-250 | the repaired variant ends on every key with the right answer |
| Lookup.DirectorySorted | hw7/data_bank/include/data_bank/external_sort/data_file.hpp:127-148 | directory keys are last keys and never decrease |
| Lookup.DirectorySelects | hw7/data_bank/include/data_bank/external_sort/data_file.hpp:202-213 | no image is selected exactly above the maximum, else the one holding the first entry not below the key |
| Lookup.SelectedImage | hw7/data_bank/include/data_bank/external_sort/data_file.hpp:62-71 | the selected image holds the key exactly when the data does, and the search in it ends exactly on the stated keys |
| Lookup.LookupHaltsExactly | hw7/data_bank/include/data_bank/external_sort/data_file.hpp:62-71 | a lookup in the images of sorted data ends exactly on occurring keys, keys above all, and keys whose smaller entries fill whole images |
| DataFiles.AnswerableExactly | hw7/data_bank/include/data_bank/external_sort/data_file.hpp:62-71 | the same set of keys, stated on the unsorted data file |
| DataFiles.LookupLoops | hw7/data_bank/include/data_bank/external_sort/data_file.hpp:237-241 | a concrete file and absent key on which the lookup in the built images does not end |
| DataFiles.LookupFacts | hw7/data_bank/include/data_bank/external_sort/data_file.hpp:62-71 | the image that the directory selects decides whether the key occurs in the data |
| DataFiles.IndexedLookup | hw7/data_bank/include/data_bank/external_sort/data_file.hpp:62-71 | for any directory of the images of sorted data: when nothing is selected, what is found, and exactly which lookups return |
| DataFiles.ServedLookup | hw7/data_bank/include/data_bank/external_sort/data_file.hpp:62-71 | after a build a lookup finds exactly the keys of the data file, returns exactly on the answerable ones, and sees only entries of the data, under the key only such with fewer than m smaller values |
| DataFiles.DataFile.FindImage | hw7/data_bank/include/data_bank/external_sort/data_file.hpp:202-213 | the scan of the directory stops at the first key that is not below the one sought |
| DataFiles.DataFile.At | hw7/data_bank/include/data_bank/external_sort/data_file.hpp:62-71 | a lookup that ends finds what the selected image of any directory holds; after a build it agrees with a linear scan of the data file, and the value of a repeated key is one of the m least, with images of one entry the least |
| DataFiles.DataFile.RepairedAt | hw7/data_bank/include/data_bank/external_sort/data_file.hpp:62-71 | over the repaired search every lookup agrees with a linear scan |
| CacheFiles.ImageNameInjective | hw7/data_bank/include/data_bank/external_sort/data_file.hpp:253-262 | different images have different file names |
| CacheFiles.FromCharsDecimal | hw7/data_bank/src/external_sort/cache_file.cpp:54 | every 64-bit key is parsed back from its decimal text, and a larger number leaves 0 |
| CacheFiles.FormatExample | hw7/data_bank/src/external_sort/cache_file.cpp:75-92 | the text of a name line and one record |
| CacheFiles.CacheRoundTrip | hw7/data_bank/src/external_sort/cache_file.cpp:40-92 | over any former contents the meant reader returns the name, all records written, and the records that the leftover spells; just what was written if and only if the leftover has no ';' after a '_', and none at all without a '_' |
| CacheFiles.ReaderNeverRoundTrips | hw7/data_bank/src/external_sort/cache_file.cpp:40-66 | the reader as written returns more records than were written, over any former contents |
| CacheFiles.ReaderExactly | hw7/data_bank/src/external_sort/cache_file.cpp:40-66 | for every name and former contents: readings of the name line in place of the first record, the other records, then readings of the leftover, or an empty record |
| CacheFiles.FirstReadingsPlain | hw7/data_bank/src/external_sort/cache_file.cpp:49-60 | for a name without ';' the first is one record, whose key is the number the name begins with, under the first image's name unless the name has a '_' |
| CacheFiles.BareNameRead | hw7/data_bank/src/external_sort/cache_file.cpp:49-64 | what is read from a name line with no records of its own, whatever an earlier file left behind it |
| CacheFiles.CacheFile.Write | hw7/data_bank/src/external_sort/cache_file.cpp:75-92 | writing replaces bytes at the position and keeps what lies beyond |
| CacheFiles.CacheFile.WriteFilename | hw7/data_bank/src/external_sort/cache_file.cpp:75-80 | the file holds the name line, over its former contents |
| CacheFiles.CacheFile.AppendImage | hw7/data_bank/src/external_sort/cache_file.cpp:83-92 | the file holds one record more |
| CacheFiles.CacheFile.ReadDataFileName | hw7/data_bank/src/external_sort/cache_file.cpp:95-107 | the first line, or an error when there is none |
| CacheFiles.CacheFile.IsRelevant | hw7/data_bank/src/external_sort/cache_file.cpp:22-37 | relevant exactly when the file is there and its first line is the name; an error exactly when it has no line |
| CacheFiles.CacheFile.ReadImages | hw7/data_bank/src/external_sort/cache_file.cpp:40-66 | the loop returns the records of the reader as written |
| CacheFiles.FirstLineIs | hw7/data_bank/src/external_sort/cache_file.cpp:95-107 | a file is relevant for exactly the name it was written under |
| DataFiles.ReopenAsMeant | hw7/data_bank/include/data_bank/external_sort/data_file.hpp:49-58 | from the cache file that a build leaves, the meant reader restores the directory if and only if the leftover holds no ';' that ends a record |
| DataFiles.StaleDirectoryRead | hw7/data_bank/src/external_sort/cache_file.cpp:69-72 | a concrete build over another data file's cache file from which even the meant reader takes a stale record |
| DataFiles.WrittenIsRelevant | hw7/data_bank/include/data_bank/external_sort/data_file.hpp:49-58 | once the name line is written, even if the sort then fails, the next start reads the cache file |
| DataFiles.ReopenedLookup | hw7/data_bank/include/data_bank/external_sort/data_file.hpp:49-71 | through the reader as written, after any build: what precedes the images other than the first, what these answer and which lookups return, and what follows them |
| DataFiles.ReopenedExactly | hw7/data_bank/include/data_bank/external_sort/data_file.hpp:49-71 | over no longer cache file and for a name without ';', exactly which keys are found and which lookups return, above the number the name begins with and up to it |
| DataFiles.ExampleReopened | hw7/examples/big_file/main.cpp:11-17 | with the example's file name a nonzero key is found again if and only if an image other than the first holds it |
| DataFiles.ReopenedAfterFailure | hw7/data_bank/include/data_bank/external_sort/data_file.hpp:49-58 | after a failed build, over any former cache file: every key up to the number the name begins with leads to one file, and when that is no image; the others lead where the leftover leads |
| Coroutines.RunSound | hw7/http/src/utils/coroutine.cpp:69-158 | in every run the queue holds, once each, exactly the ids of finished slots |
| Coroutines.CreatedSound | hw7/http/src/utils/coroutine.cpp:69-85 | create never hands out a live id and touches no live slot |
| Coroutines.SettledSound | hw7/http/src/utils/coroutine.cpp:88-158 | a resumption changes its own slot alone, which stays live exactly if it yielded |
| Coroutines.SlotsArePeak | hw7/http/src/utils/coroutine.cpp:69-85 | the number of slots is the largest number of routines that were ever live at once |
| Coroutines.RecycledInOrder | hw7/http/src/utils/coroutine.cpp:69-85 | slots are recycled in the order in which their routines ended |
| Coroutines.LiveCount | hw7/http/src/utils/coroutine.cpp:69-158 | live and finished slots together are all slots |
| Coroutines.Ordinator.Create | hw7/http/src/utils/coroutine.cpp:69-85 | the whole new state and the id, which was not live and now is |
| Coroutines.Ordinator.Enter | hw7/http/src/utils/coroutine.cpp:88-102 | resuming is refused exactly for ids that are not live |
| Coroutines.Ordinator.Yield | hw7/http/src/utils/coroutine.cpp:118-126 | the current slot keeps its frame and nothing is running |
| Coroutines.Ordinator.Finish | hw7/http/src/utils/coroutine.cpp:137-158 | the current slot is finished and queued |
| ClientHandlers.ClientHandler.IsTimedOut | hw7/http/src/server/client_handler.cpp:79-101 | either timeout counts, and only a handler that is not timed out notes the time |
| ClientHandlers.ClientHandler.TryWrite | hw7/http/src/server/client_handler.cpp:50-76 | what a partial, complete or failed write leaves to be sent |
| ClientHandlers.ClientHandler.Handle | hw7/http/src/server/client_handler.cpp:16-47 | the loop over what can be read, to the next yield or the end |
| ClientHandlers.ClientHandler.Resume | hw7/http/src/server/client_handler.cpp:20-67 | continuing after a yield in either place |
| ClientHandlers.ResumedSettles | hw7/http/src/server/client_handler.cpp:16-76 | a resumption only adds bytes, and a response stays cut only after a timeout in the middle of sending or an exception |
| ClientHandlers.ConnectionIntegrity | hw7/http/src/server/client_handler.cpp:16-76 | for every pattern of reads, writes and resumptions the bytes sent are the responses in order, the last cut at worst |
| ClientHandlers.ServedAnswers | hw7/http/src/server/client_handler.cpp:16-47 | requests are answered in order, and all of them before the handler waits for more |
| ClientHandlers.PunctualNotCut | hw7/http/src/server/client_handler.cpp:79-101 | a handler resumed within both timeouts each time is never cut off by one |
| ClientHandlers.LateEnds | hw7/http/src/server/client_handler.cpp:79-101 | a handler resumed after either timeout ends at once, with nothing more sent or noted |
| ClientHandlers.ServedExplained | hw7/http/src/server/client_handler.cpp:16-47 | how many requests a stretch takes up, and exactly when it ends, raises, waits or stops in the middle of a response |
| ClientHandlers.KeepAliveDecides | hw7/http/src/server/client_handler.cpp:34-46 | on every connection all requests answered but the last had Keep-Alive; without exception or timeout the handler ends if and only if the last had not and its response is sent |
| ClientHandlers.ResumedRaises | hw7/http/src/server/client_handler.cpp:16-76 | a resumption ends in an exception if and only if it is in time and a write, read, parse or callback that it reaches throws |
| ClientHandlers.IdleEnds | hw7/http/src/server/client_handler.cpp:79-101 | a handler suspended for the shorter timeout ends when it is resumed, with nothing more sent |
| ServerWorkers.EventConsistent | hw7/http/src/server/server_worker.cpp:105-154 | handling an event keeps worker and pool consistent if and only if it does not create a routine without EPOLLIN |
| ServerWorkers.EventResumes | hw7/http/src/server/server_worker.cpp:140-151 | an event on a known descriptor leaves its client where the resumed handler leaves it, and touches no other |
| ServerWorkers.EventStarts | hw7/http/src/server/server_worker.cpp:140-147 | an event on a new descriptor takes a slot that was not live and runs a handler in it, and touches no other client |
| ServerWorkers.RunConsistent | hw7/http/src/server/server_worker.cpp:23-49 | in every run, until an exception escapes, clients and live routines agree and every session is accounted for; all closed ones were delivered |
| ServerWorkers.FailsExactly | hw7/http/src/server/server_worker.cpp:23-49 | a run has failed if and only if some resumption in it ended in an exception |
| ServerWorkers.NothingHappens | hw7/http/src/server/server_worker.cpp:33-47 | an interrupted round, an accepting event and a sweep of nobody leave everything as it was, and after a failure nothing more happens |
| ServerWorkers.EventsInOrder | hw7/http/src/server/server_worker.cpp:128-154 | the events of a batch take place one after another and none is left out, until an exception |
| ServerWorkers.SessionsAccounted | hw7/http/src/server/server_worker.cpp:105-154 | in every legal run each session that was started is over or goes on in a live routine |
| ServerWorkers.AgreementIsBijection | hw7/http/src/server/server_worker.cpp:128-154 | clients have different routines, and these are all the live ones |
| ServerWorkers.IdleClears | hw7/http/src/server/server_worker.cpp:119-125 | after an idle round no client and no unfinished routine is left, in any order of the sweep |
| ServerWorkers.WorkerPoolIsRun | hw7/http/src/server/server_worker.cpp:128-154 | the pool is what the run's own creations and resumptions make of an empty one, with as many slots as there were ever live routines at once among them |
| ServerWorkers.SlotsAreMostClients | hw7/http/src/server/server_worker.cpp:128-154 | in every legal run the pool has exactly as many slots as there were ever clients at once |
| ServerWorkers.EventWithoutInput | hw7/http/src/server/server_worker.cpp:105-116 | a concrete event without EPOLLIN that leaves a client mapped to a finished slot |
| ServerWorkers.ServerWorker.HandleClient | hw7/http/src/server/server_worker.cpp:105-116 | what one stretch of a client's routine does, including whether it erases the client |
| ServerWorkers.ServerWorker.Resume | hw7/http/src/utils/coroutine.cpp:88-115 | guard, run and settle one routine |
| ServerWorkers.ServerWorker.ProcessEvents | hw7/http/src/server/server_worker.cpp:128-154 | the whole new state of worker and pool after a batch of events |
| ServerWorkers.ServerWorker.CheckClientsTimeout | hw7/http/src/server/server_worker.cpp:119-125 | the whole new state after the sweep of a snapshot of the clients |
| ServerWorkers.ServerWorker.Run | hw7/http/src/server/server_worker.cpp:23-49 | the worker object goes through the states of the run |
| SharedMemories.MutualExclusion | hw5/shmem/include/shmem/utils/sync/Semaphore.hpp:46-92 | no two processes are inside the same critical section |
| SharedMemories.ExecLocked | hw5/shmem/include/shmem/utils/sync/Semaphore.hpp:46-92 | under every interleaving each semaphore's count and its holders add up to one |
| SharedMemories.DeadlockFree | hw5/shmem/include/shmem/container/Map.hpp:109-138 | while any operation is under way, and no process was lost to a refused node, some process inside one can move |
| SharedMemories.StalledExactly | hw5/shmem/include/shmem/container/Map.hpp:109-138 | a state is stalled if and only if all are idle, or a process is lost and the others are idle or wait for the map |
| SharedMemories.GoneForGood | hw5/shmem/include/shmem/SharedMemory.hpp:117-130 | once a process is lost no operation is entered or takes effect any more, under every interleaving |
| SharedMemories.OperationsComplete | hw5/shmem/include/shmem/container/Map.hpp:109-138 | without new calls every schedule is bounded, and one that cannot go on has completed every operation, or a process is lost and the rest wait for the map |
| SharedMemories.AllocatorSafe | hw5/shmem/include/shmem/SharedMemory.hpp:99-114 | under every interleaving the blocks are disjoint and tile the taken part with no gap, their sizes add up to it, and the end is passed by less than n - 1 of the largest requests that are allowed and fit |
| SharedMemories.StepGrants | hw5/shmem/include/shmem/SharedMemory.hpp:99-114 | a request gets exactly the next bytes, as many as it asked for, in the step that moves the boundary, and no other step hands out any |
| SharedMemories.ExecGranted | hw5/shmem/include/shmem/SharedMemory.hpp:99-114 | under every interleaving each process that was given bytes and each node has a block of the size asked for, and there are as many blocks as requests that were given bytes |
| SharedMemories.NodesNeverOverlap | hw5/shmem/include/shmem/SharedMemory.hpp:99-114 | under every interleaving no two nodes of the map have a byte in common |
| SharedMemories.OverrunBounded | hw5/shmem/include/shmem/SharedMemory.hpp:99-114 | in particular by less than n - 1 requests of the size that bounds them all |
| SharedMemories.BoundAttained | hw5/shmem/include/shmem/SharedMemory.hpp:99-114 | that bound is reached by some schedule, for every region with room, number of processes and positive limit on requests |
| SharedMemories.SafeExactly | hw5/shmem/include/shmem/SharedMemory.hpp:99-114 | no run passes the end if and only if one process allocates, or no byte is free below the last, or no byte is asked for |
| SharedMemories.MapNeverRefused | hw5/shmem/include/shmem/SharedMemory.hpp:117-130 | through the map alone no node is ever refused, so no process is lost |
| SharedMemories.ExecInPlace | hw5/shmem/include/shmem/SharedMemory.hpp:99-130 | when a region cannot grow between a node's comparison and its allocation, every node is where deallocate accepts it |
| SharedMemories.RefusedExactly | hw5/shmem/include/shmem/SharedMemory.hpp:99-130 | some run loses a process to a refused node if and only if there is a second process, a byte to ask for and room for a node |
| LockedMaps.MapIsReplay | hw5/shmem/include/shmem/container/Map.hpp:109-138 | under every interleaving the map is the replay of the operations in acquisition order, and each that returned told what it did to the map; lost ones have had their effect |
| LockedMaps.KeptUntilErased | hw5/shmem/include/shmem/container/Map.hpp:109-138 | a key added where it was absent keeps that value until it is erased |
| LockedMaps.AbsentUntilAdded | hw5/shmem/include/shmem/container/Map.hpp:134-138 | an erased key stays away until it is added again |
| LockedMaps.CountIsChange | hw5/shmem/include/shmem/container/Map.hpp:109-138 | what a caller is told is by how much the map has grown or shrunk |
| LockedMaps.MapSerializable | hw5/shmem/include/shmem/container/Map.hpp:109-138 | through the map alone every interleaving equals the serial run in what each operation returns or throws, in map and allocations; it loses no process and never passes the end |
| LockedMaps.BytesTaken | hw5/shmem/include/shmem/container/Map.hpp:109-138 | the bytes taken are those of the nodes made: one for every emplacement that does not throw and for every insertion that adds, and none comes back |
| LockedMaps.ActEffect | hw5/shmem/include/shmem/container/Map.hpp:109-138 | only the operation under way touches the map, in the one step in which it takes effect |
| LockedMaps.Semaphore.Release | hw5/shmem/include/shmem/utils/sync/Semaphore.hpp:60-69 | the count rises by the number asked for |
| LockedMaps.SharedMemory.Allocate | hw5/shmem/include/shmem/SharedMemory.hpp:99-114 | alone, a request is refused exactly when it would reach the end, and otherwise gets the next bytes |
| LockedMaps.SharedMemory.Deallocate | hw5/shmem/include/shmem/SharedMemory.hpp:117-136 | gives nothing back, and is refused exactly outside the taken part or across the end |
| LockedMaps.Map.Emplace | hw5/shmem/include/shmem/container/Map.hpp:109-114 | the serial effect on map and allocator and the result: a duplicate costs a node, which is not refused |
| LockedMaps.Map.Insert | hw5/shmem/include/shmem/container/Map.hpp:116-120 | the serial effect and the result: a duplicate costs nothing |
| LockedMaps.Map.Erase | hw5/shmem/include/shmem/container/Map.hpp:134-138 | the serial effect, and how many keys went; the node is not refused |
| Loggers.RunInvariant | hw2/log/src/ThreadedLogger.cpp:29-62 | in every reachable state logged, in hand and queued messages are those enqueued, in order, and no wake-up is lost |
| Loggers.CallsConserved | hw2/log/src/ThreadedLogger.cpp:29-37 | in every run each message was enqueued, or is still carried by a producer, as often as it was passed to an accepted call |
| Loggers.CallsInOrder | hw2/log/src/ThreadedLogger.cpp:29-37 | each producer's messages reach the queue in the order of its calls |
| Loggers.ExitsDrained | hw2/log/src/ThreadedLogger.cpp:58-61 | when the worker leaves, everything enqueued so far has been logged |
| Loggers.StuckDecided | hw2/log/src/ThreadedLogger.cpp:40-62 | once stopped, whether the worker is stuck never changes |
| Loggers.JoinReturnsExactly | hw2/log/src/ThreadedLogger.cpp:40-48 | after stop the worker can exit if and only if it is not waiting on an empty queue that no producer will fill |
| Loggers.StoppedRunsEnd | hw2/log/src/ThreadedLogger.cpp:51-62 | after stop every schedule is bounded, and one that cannot go on ends with the worker gone exactly if it was not stuck |
| Loggers.StopCanHang | hw2/log/src/ThreadedLogger.cpp:40-48 | a concrete run after which the worker is never joined |
| Loggers.LateNeverLogged | hw2/log/src/ThreadedLogger.cpp:29-37 | what is enqueued after the worker has left is never logged, and it is as many messages as producers were past the test |
| Loggers.AllLoggedExactly | hw2/log/src/ThreadedLogger.cpp:51-62 | when the worker leaves, every message enqueued then or later is logged if and only if no producer is past the test |
| Loggers.DrainMoves | hw2/log/src/ThreadedLogger.cpp:58-61 | a worker undisturbed in its second loop logs the queue in order and is gone after three moves a message and one |
| Loggers.SafeQueue.Enqueue | hw2/log/include/log/utils/SafeQueue.hpp:22-31 | queue and waiting worker go through the producer's two steps, push and notify |
| Loggers.SafeQueue.Dequeue | hw2/log/include/log/utils/SafeQueue.hpp:34-47 | the worker's step at the queue: the front message is taken, or it goes to sleep on an empty queue |
| Loggers.ThreadedLogger.EnqueueLog | hw2/log/src/ThreadedLogger.cpp:29-37 | an undisturbed call is the producer's three steps; it puts its message at the back of the queue, or is refused exactly after stop |
| Loggers.ThreadedLogger.Stop | hw2/log/src/ThreadedLogger.cpp:40-42 | the step of stop: the flag is set, queue and waiting worker are left as they are |
| Loggers.ThreadedLogger.Drain | hw2/log/src/ThreadedLogger.cpp:58-61 | the loop is the worker's run from the head of it until it is gone, and leaves the queue logged in order and empty |
| HttpHeaders.ToString | hw7/http/src/network/protocol/http_response.cpp:11-33 | the stream that the loop builds is the layout of start line, header lines, body and end |
| HttpHeaders.HttpRequest.constructor | hw7/http/src/network/protocol/http_request.cpp:8-18 | from the version line on, the object holds that line and the headers that the rest spells |
| HttpHeaders.HttpRequest.ParseVersion | hw7/http/src/network/protocol/http_request.cpp:72-78 | the first line is taken off |
| HttpHeaders.HttpRequest.ParseHeaders | hw7/http/src/network/protocol/http_request.cpp:81-102 | the loop adds the headers that the view spells, and leaves the view where they end |
| HttpHeaders.ParsedKeys | hw7/http/src/network/protocol/http_request.cpp:81-102 | no parsed name contains ':' or starts with a line break, and no present header is changed |
| HttpHeaders.ParserStops | hw7/http/src/network/protocol/http_request.cpp:81-89 | nothing is read at a blank line, without a ':', or without a line break ahead |
| HttpHeaders.LineRemoved | hw7/http/src/network/protocol/http_request.cpp:72-78 | what is left once a line is dropped, with and without a line break |
| HttpHeaders.HeaderMapHolds | hw7/http/src/network/protocol/http_request.cpp:100 | with distinct names the container holds each header as it is |
| HttpHeaders.ResponseRoundTrip | hw7/http/src/network/protocol/http_response.cpp:11-33 | parsing a printed response gives back its header map if and only if all names and values are well formed, in any order |
| HttpHeaders.ResponseLayout | hw7/http/src/network/protocol/http_response.cpp:11-33 | the first line is version, space and status, and behind well-formed headers the body is found after the blank line |

## Left out

- DataFiles.DataFile.At: requires a key on which the source returns from a sorted image; after a build its loop does not end on the others, which `DataFiles.ServedLookup` characterises. An image that cannot be opened, for which the source throws, is not among those on which it returns.
- DataFiles.DataFile.Open: requires, when it has to sort, chunks without repeated keys and a fitting window, whose exactness is proved separately; reading past the end of the temporary file or across entries is not modelled. It also requires that rounding the partition size does not wrap a 64-bit word.
- DataFiles.DataFile.MergePartitions: requires chunks without repeated keys and a fitting window, as `DataFiles.DataFile.Open` does.
- DataFiles.DataFile.ExternalSort: the same requirements; what happens to the slices without them is not modelled past `OrderedMap.SortedRunsFillFile` and `SortPhase.WindowFitsExactly`.
- DataFiles.DataFile.FindPartitionsCurrentMin: keeps a running least pair where the source fills an ordered set and takes its first element.
- Lookup.BinarySearch: an empty image is an empty interval here; the source would fail to map an empty file, which no build produces.
- CacheFiles.CacheFile.ReadImages: where no '_' is left, as after the last record, the source passes `from_chars` an end before its beginning (hw7/data_bank/src/external_sort/cache_file.cpp:54), which is undefined; the model parses the whole view.
- HttpHeaders.HttpRequest.constructor: starts at the version line; method, path and body are not modelled.
- HttpHeaders.HttpRequest.ParseHeaders: where only spaces follow a ':' to the end of the view, the source removes more than there is, which is undefined; the model removes everything.
- ServerWorkers.ServerWorker.CheckClientsTimeout: sweeps a snapshot; the source erases from the map while iterating over it, which is undefined.
- SharedMemories.AllocatorSafe: sizes and addresses are unbounded; a request so large that `m_begin + count * sizeof(T)` wraps (hw5/shmem/include/shmem/SharedMemory.hpp:102) passes the comparison in the source and is not modelled. The same holds for the other results about the allocator.
- LockedMaps.SharedMemory.Allocate: the same; it states the source's comparison for requests that do not wrap.
- SharedMemories.RefusedExactly: a node that passes the end is linked like any other, where the source would write outside the mapping.
- LockedMaps.MapSerializable: a map operation makes one allocation, of a fixed positive size. Keys and values that allocate in the same region while a node is built, as in hw5/examples/simple/main.cpp, are not modelled. The number of nodes that `std::map` keeps, which a lost process leaves wrong, is not either.
- LockedMaps.Semaphore.Release: failures of the semaphore calls and retries after a signal are not modelled.
- Loggers.ThreadedLogger.Stop: joining the worker is only in the step model.
- Loggers.SafeQueue.Dequeue: the loop around the wait is only in the step model, and so is the first loop of `work`.
- Page alignment of mappings, and all system calls: `mmap`, `open`, `fstat`, sockets, `epoll_ctl`, `fork`. The page size is a parameter.
- The bytes of an entry: keys and values are copied as a whole.
- Accepting connections, descriptors and their closing: a new client is the first event on its descriptor. Failures of `epoll_wait` other than EINTR, and of accepting, which throw out of `run`, are not modelled.
- `send_file` and the files of a response, except that their presence changes the printed text.
- Stacks, context switches and growth of the pool's storage: only the main context creates and resumes.
- The millisecond clock is unbounded and does not go back.
- Method, path, query string, escapes and body of a request.
- `at`, `operator[]`, iterators and range erasure of the shared map, and `destroy`.
- Message callbacks, formatters and concrete loggers; `m_done` and `empty` are read in one step.
- hw1, hw3, hw4, error classes, signal handling, examples and the file generator.
