# Verified model of the multi-storage file system daemon

The daemon in `multi-storage-file-system/` is a FUSE file system, written in Go,
over object stores. This project models its five hardest parts in Dafny and
proves what they are meant to keep. `dafny verify dfyconfig.toml` checks it all.

**Data cache and reads** (`DataCache*.dfy`, `Lru.dfy`). A fixed pool of
cache-line slots is shared by readers, fetches, evictions and deletes. `DoRead`
copies bytes without the global lock and accepts the copy if the slot's
generation did not change. The model is a transition system: one action for
each section that runs under the lock, one for each byte that is copied without
it. A theorem over every sequence of actions holds in every interleaving. The
LRU lists are the intrusive lists of the code, in the shared tracker arrays,
proved against the sequences they stand for.

**Inode lifecycle** (`Inodes.dfy`, `FileSystem.dfy`, `ReadDir.dfy`). A class
whose methods are the locked operations on the inode table, the two
directory-entry maps, the eviction queue, the handles and the deferred deletes.
Each `Fatalf` of the code is an `assert` in the method, so the proof shows that
none is reachable on runs without unmount and ingest. `ReadDir` is the cursor of
one directory handle over the pages of a listing.

**PSEUDO backend** (`Pseudo*.dfy`). Mixed-radix unranking of an index into a
path, and ranking of any `startAfter` string by one binary search per element,
against sorting and filtering the full listing. The name formats are any whose
names are in order (`Ordered`); whether the code can also tell the names from all
other strings (`NamesOk`) decides exactly when the ranking is right.

**Manifest generation** (`Lex.dfy`, `RangeSplit.dfy`, `Bfs*.dfy`). Base-95
interpolation between two keys, the range split built on it, and the termination
detection of the parallel walk, as a state machine over goroutine steps.

**Keys and encodings** (`BigEndian.dfy`, `DirEntries.dfy`, `InodeCodec.dfy`, `InodeLayout.dfy`).
Order-preserving composite keys, the 64-way sharded map that behaves as one
sorted map, and the byte layout of an inode.

`Bytes.dfy`, `Arithmetic.dfy` and `Collections.dfy` hold the byte order and small
facts that several models share. Each model of an inode holds the fields that
its part of the code reads and writes.

## What turned out false

Each of these is stated with the exact condition under which the code does meet
the property.

- The allocator's "Inbound is never empty when short" fails once enough reads
  hold slots and wait for more (`StarvationExactly`).
- A key that equals a split point is listed by no worker (`CompleteIff`). The first
  key is always lost when the last key is estimated to be the first
  (`FirstKeyIsLost`, `FirstKeyIsLostIff`).
- The manifest walk can wait for itself, with the channel full and every worker
  blocked on it. It cannot on trees of at most the depth limit plus one levels, or
  plus two with more than one worker, and can one level above, for every number of
  workers and every capacity (`SafeHeightIsExact`).
- A name that Sscanf does not read back is found by `checkPathElement` and reported
  as one that is not there, against the function's own comment (`NamesExactIff`);
  the default formats do so exactly from number 2^32 on (`DefaultFormatsIff`,
  `NineDigitsAreLost`).
- A string among the names that is the print of a number that is not used is
  reported as greater than all of them (`AlwaysFallsIff`), as "100" among 10 to 99
  (`HundredCountsAll`). For names in order, the token of every `startAfter` is right
  if and only if neither happens (`TokensRightIff`, `StringsRightIff`).
- The PSEUDO counts are uint64 sums that the configuration checks do not bound
  (`CountsExactIff`, `OverflowDividesByZero`).
- A time equal to the Unix epoch comes back from a page as the zero time
  (`ExactIff`, `EpochIsLost`), and a parent with the largest number has a wrong
  index range (`RangeExactIff`).
- A listed file that is also a subdirectory comes up twice in a directory listing
  (`TotalCounts`, `TotalIsDistinctIff`).

## Model

| member | source | states |
|---|---|---|
| DataCacheTheorems.ReadReturnsObject | multi-storage-file-system/fission.go:1071-1411 | In every interleaving, a read that ended without an error returned exactly object[offset .. min(offset+size, size)], whatever hits, misses, waits, prefetches, evictions and retries happened on the way. |
| DataCacheErrors.ErrorsAreEarned | multi-storage-file-system/fission.go:1071-1328 | In every interleaving a read ends with EIO only if the backend failed, in that run, to read the very line the read stands at; with ENOENT or EBADF only if the reader took the lock while its inode was gone or its handle closed. |
| DataCacheErrors.CauseHappened | multi-storage-file-system/cache.go:487-563 | Each such cause is an action of the run, taken in a state in which the read failed, the inode was gone or the handle was closed. |
| DataCacheErrors.RefusedAtOnce | multi-storage-file-system/fission.go:1163-1209 | A reader that takes the lock to go on while its inode is gone or its handle closed is done at once, with ENOENT or EBADF, both before and after the allocator. |
| DataCacheErrors.BadLineIsReported | multi-storage-file-system/fission.go:1317-1328 | A reader whose line was fetched with an error ends with EIO and no more data; the line is unmapped and its slot free, so the next read fetches it again. |
| DataCacheAnswers.ServesLine | multi-storage-file-system/fission.go:1330-1410 | A reader whose line is cached extends its data, by its own steps alone, by the object's bytes up to the end of what was asked for, of the line, or of the object. |
| DataCacheAnswers.CachedReadsAreAnswered | multi-storage-file-system/fission.go:1071-1411 | From any reached state, a read of an open file whose lines are cached is answered in full and without an error, by its own steps alone. |
| DataCacheAnswers.MissLook | multi-storage-file-system/fission.go:1135-1161 | A miss asks for its line and for exactly the unmapped lines after it that are in the object and within the prefetch setting and the size of the cache, in order. |
| DataCacheAnswers.ResumeFills | multi-storage-file-system/fission.go:1219-1280 | After the allocator, the missed line and every line ahead that was asked for are mapped, those that were not before are Inbound with a fetch started, nothing else is mapped or unmapped, and the reader waits for its line. |
| DataCacheTheorems.CopyCheckIsSound | multi-storage-file-system/fission.go:1363-1410 | A copy made without the lock whose generation is the same before and after is exactly the bytes of that inode's object at that offset. |
| DataCacheTheorems.IndexIsExact | multi-storage-file-system/cache.go:383-407 | `cacheMap[line] = pos` holds if and only if slot `pos` is Inbound or Clean and tagged with that inode and line; `inboundCacheLineCount` is the number of that inode's Inbound slots. |
| DataCacheTheorems.PoppedSlotsAreOwned | multi-storage-file-system/cache.go:362-451 | A slot that is on no LRU is held by exactly one allocating reader, once, and every slot a reader holds is such a slot and is mapped by no inode. |
| DataCacheTheorems.AllocationIsExact | multi-storage-file-system/fission.go:1135-1161 | A read asks for one line plus the lines ahead of it, which are lines of the object and within the prefetch setting, never for more than there are, and the allocator returns exactly as many different slots as were asked for. |
| DataCacheTheorems.NoWaiterIsStranded | multi-storage-file-system/cache.go:589-599 | A blocked thread, of DoRead, of its allocator or of finishPendingDelete, is on the waiter list of an Inbound slot whose fetch is still running. |
| DataCacheTheorems.OnlyStarvationIsFatal | multi-storage-file-system/cache.go:383-424 | Of the Fatalf calls of the allocator, the fetch, eviction, DoRead and the cache lines of finishPendingDelete, only the allocator's "no Inbound line" is reachable without unmount. |
| DataCacheTheorems.DeletesAreAlone | multi-storage-file-system/fs.go:1454-1563 | In every interleaving an inode has at most one deleting thread, which at each restart still finds the inode there, unlinked and without handles. |
| DataCacheTheorems.DeletedLeavesNothing | multi-storage-file-system/fs.go:1469-1563 | Once a delete is over, and whatever runs after it, the inode is gone and no Inbound or Clean slot is tagged with it. |
| DataCacheProgress.StuckExactly | multi-storage-file-system/fission.go:1071-1411 | In every reached state, no started read, delete or fetch can take a step if and only if all of them are over or the allocator's Fatalf ended the daemon: there is no deadlock. |
| DataCacheStarvation.StarvationExactly | multi-storage-file-system/cache.go:409-430 | With at most `width` reads allocating at once, by a run that the lock allows, the allocator's "no Inbound line" Fatalf is reachable if and only if `width` reads can ask for more lines than the cache has. |
| DataCacheStarvation.NarrowRunsLive | multi-storage-file-system/cache.go:409-430 | From any state of a run, as long as no more reads allocate than the cache can serve, no run dies. |
| DataCacheReads.RunInv | multi-storage-file-system/cache.go:362-566 | Every action of every interleaving keeps the invariant of slots, index, stored bytes, held slots, waiters, readers and deleting threads. |
| DataCache.UnmappedExactly | multi-storage-file-system/fission.go:1152-1157 | The lines ahead that a miss asks for are exactly the unmapped lines of the range, in order. |
| Lru.Lru.PushTail | multi-storage-file-system/cache.go:177-200 | Appends the slot to the sequence the list stands for, and leaves every other list over the same trackers as it was. |
| Lru.Lru.PopHead | multi-storage-file-system/cache.go:222-254 | Takes the first slot off, says whether there was one, and leaves every other list as it was. |
| Lru.Lru.PopTail | multi-storage-file-system/cache.go:256-288 | Takes the last slot off, says whether there was one, and leaves every other list as it was. |
| Lru.Lru.PopThis | multi-storage-file-system/cache.go:290-323 | Deletes the slot wherever it is, and keeps the order of the others, also when it is slot 0, the head or the tail. |
| Lru.Lru.TouchThis | multi-storage-file-system/cache.go:325-353 | Moves the slot to the end, and keeps the order of the others. |
| Lru.ListsAreDisjoint | multi-storage-file-system/cache.go:177-353 | Two lists over the same trackers share no slot. |
| Lru.DataCacheUp | multi-storage-file-system/cache.go:23-142 | All slots on the Free list in order, the other four lists empty. |
| Lru.TakeLines | multi-storage-file-system/cache.go:371-407 | One pass of the allocator takes the oldest Free slots, then the oldest Clean ones, and is short only if both lists are then empty. |
| Inodes.CountsMeanNoChildren | multi-storage-file-system/fs.go:788-792 | The two index-range differences are 0 and 2 if and only if the directory holds only "." and "..". |
| Inodes.PendingIsSafe | multi-storage-file-system/fs.go:743-775 | An unlinked file that is not finished yet is not on the eviction queue, and neither is its directory. |
| Inodes.DrainedSurvive | multi-storage-file-system/fs.go:898-960 | With an empty queue, everything left is pinned or has a pinned descendant. |
| Inodes.EvictableDies | multi-storage-file-system/fs.go:898-960 | Nothing that is up for eviction is pinned or has a pinned descendant. |
| FileSystem.Fs.constructor | multi-storage-file-system/fs.go:15-110 | The FUSE root alone meets the invariant. |
| FileSystem.Fs.Touch | multi-storage-file-system/fs.go:743-811 | Keeps the invariant; the inode ends up on the queue if and only if it is evictable, at now plus the virtual file, virtual directory or physical TTL as its kind says; nothing else changes. |
| FileSystem.Fs.IsIdle | multi-storage-file-system/fs.go:766-792 | The test as computed is evictability: a file without handles, lines in flight or pending delete; a directory without handles or children; never a root. |
| FileSystem.Fs.Mount | multi-storage-file-system/fs.go:160-246 | A new backend, with a number of its own, and its root under the FUSE root with its entries; keeps the invariant. |
| FileSystem.Fs.CreatePseudoDir | multi-storage-file-system/fs.go:452-531 | One new directory with no children, the next number and its parent's backend, its entry and its dots, nothing else changed but the parent's eviction time; no Fatalf. |
| FileSystem.Fs.CreateFile | multi-storage-file-system/fs.go:534-599 | One new file with the next number and its parent's backend, its entry, nothing else changed but the parent's eviction time; no Fatalf. |
| FileSystem.Fs.EvictOne | multi-storage-file-system/fs.go:844-884 | Removes one evictable inode and exactly its entry, hits no Fatalf, and touches its parent, which was not queued. |
| FileSystem.Fs.Front | multi-storage-file-system/bptree.go:790-814 | The element with the least (time, inode number), if there is one. |
| FileSystem.Fs.EvictExpired | multi-storage-file-system/fs.go:829-885 | After a tick nothing expired is queued; a file is gone if and only if its time had come; so is a directory, when the TTLs are positive; a directory emptied on the way is due its TTL from now. |
| FileSystem.Fs.ForceDrain | multi-storage-file-system/fs.go:898-960 | Terminates with an empty queue, returns exactly the number of inodes removed, and leaves exactly the pinned inodes and their ancestors. |
| FileSystem.Fs.ConvertToPhys | multi-storage-file-system/fs.go:414-447 | Moves the entry from the virtual to the physical map and touches the inode, hits no Fatalf, changes nothing else. |
| FileSystem.Fs.FindChild | multi-storage-file-system/fs.go:965-1089 | Finds the child if and only if an entry or the backend has it; a known one where it is, an unknown one created empty in its parent's backend with its entries; parent and child touched, everything else unchanged. |
| FileSystem.Fs.ListChild | multi-storage-file-system/fission.go:2002-2015 | After a listed name was visited it is in the physical map and not in the virtual one; a name not known before is a new inode of the listed kind in its parent's backend. |
| FileSystem.Fs.Open | multi-storage-file-system/fission.go:885-958 | Succeeds if and only if the file exists, was not unlinked, and is not held exclusively; which errno otherwise; one new handle, and the inode off the queue. |
| FileSystem.Fs.Release | multi-storage-file-system/fission.go:1500-1541 | Succeeds if and only if the handle is open on the file, which errno otherwise; the inode is due now plus its TTL if and only if it is then evictable; asks for the deferred delete if and only if it closed the last handle of an unlinked file. |
| FileSystem.Fs.OpenDir | multi-storage-file-system/fission.go:1642-1713 | Succeeds on every directory and on nothing else, which errno otherwise; the directory leaves the queue. |
| FileSystem.Fs.ReleaseDir | multi-storage-file-system/fission.go:2079-2132 | Succeeds if and only if the handle is open on the directory and no listing is in progress on it, which errno otherwise; the directory is touched. |
| FileSystem.Fs.Unlink | multi-storage-file-system/fission.go:604-675 | Succeeds if and only if the parent is writable and has a file of that name that is not pending, which errno otherwise; marks exactly that file, once; asks for the delete if and only if no handle is open. |
| FileSystem.Fs.FinishPendingDelete | multi-storage-file-system/fs.go:1454-1563 | Waits while lines are in flight, otherwise removes the inode and exactly its entry, records it as finished and touches its parent; no Fatalf. |
| FileSystem.Fs.MkDir | multi-storage-file-system/fission.go:478-561 | Succeeds if and only if the parent is writable and neither an entry nor the backend has the name, which errno otherwise; one empty virtual directory of the parent's backend appears, with its entries. |
| FileSystem.Fs.RmDir | multi-storage-file-system/fission.go:717-829 | Succeeds if and only if there is such a directory without handles and without children, which errno otherwise; exactly the directory of that name goes, with its entry and its dots; everything else stays. |
| FileSystem.Fs.BeginFetch | multi-storage-file-system/fission.go:1231-1250 | The in-flight count of an open file goes up; the invariant holds without a touch. |
| FileSystem.Fs.EndFetch | multi-storage-file-system/cache.go:518-528 | The in-flight count goes down; the invariant holds without a touch, so an idle file may stay off the queue. |
| FileSystem.Fs.SetListing | multi-storage-file-system/fission.go:1938-1946 | The handle's in-progress flag changes and nothing else. |
| FileSystem.Fs.Step | multi-storage-file-system/fs.go:743-960 | Every operation keeps the invariant and, where it can be carried out, has its effect. |
| FileSystem.Fs.Run | multi-storage-file-system/fission.go:565-675 | After any sequence of operations, each carried out in turn: an unlinked file is pending and off the queue, as is its directory, or was finished exactly once; queued inodes are evictable; every inode belongs to its parent's backend, and no two mounts to the same one. |
| ReadDir.DirHandle.constructor | multi-storage-file-system/fission.go:1671-1696 | A fresh handle may be read from offset 0. |
| ReadDir.DirHandle.FetchNext | multi-storage-file-system/fission.go:1914-1983 | The window moves on by one page, its offsets stay those of the flat list, and no unread entry is dropped. |
| ReadDir.DirHandle.Collect | multi-storage-file-system/fission.go:1977-1983 | The subdirectories of a page are added once each, in order. |
| ReadDir.DirHandle.Visit | multi-storage-file-system/fission.go:1994-2032 | The entry at the cursor is the entry of the flat list at that position, whichever region it is in. |
| ReadDir.DirHandle.ReadDir | multi-storage-file-system/fission.go:1905-2043 | A call returns exactly the entries of the flat list that fit from where the client stands, whatever the page boundaries, and the client may resume after the last of them. |
| ReadDir.DirHandle.ReadAll | multi-storage-file-system/fission.go:1905-2043 | Any number of calls with any sizes, each resuming at the last Off, return a prefix of the visible entries; as many calls as there are entries, each with room for one, return them all. |
| ReadDir.ReadRootDir | multi-storage-file-system/fission.go:1864-1893 | The FUSE root's entries, from the offset, that fit. |
| ReadDir.ChainIsPrefix | multi-storage-file-system/fission.go:1717-1743 | However the calls are sized, together they return a prefix of the visible entries: nothing twice, nothing left out; each call with room for an entry makes progress. |
| ReadDir.ChainIsComplete | multi-storage-file-system/fission.go:1905-2043 | As many calls as there are entries, each with room for one, return every entry exactly once. |
| ReadDir.FillIsFull | multi-storage-file-system/fission.go:1717-1743 | The entries of a call, each 24 bytes and its name rounded up to a multiple of 8, fit in the size asked for, and the next visible entry does not fit after them. |
| ReadDir.VisibleExactly | multi-storage-file-system/fission.go:2036-2043 | What is visible is exactly what is not pending delete, with the position after it as its Off. |
| ReadDir.VisibleOrdered | multi-storage-file-system/fission.go:2034-2037 | Visible entries have strictly increasing Off. |
| ReadDir.SubdirsAreDistinct | multi-storage-file-system/fission.go:1977-1983 | The list of subdirectories holds every subdirectory of every page exactly once. |
| ReadDir.TotalCounts | multi-storage-file-system/fission.go:1994-1999 | A name that is both a listed file and a subdirectory comes up twice; every other name of the directory exactly once. |
| ReadDir.TotalIsDistinctIff | multi-storage-file-system/fission.go:1994-1999 | No name comes up twice if and only if no file is listed as a subdirectory too; no name is missing. |
| Pseudo.SubdirsHoldObjects | multi-storage-file-system/config.go:1618-1650 | For a configuration that passes the checks, a directory with subdirectories has objects in each, so unranking divides by no zero. |
| Pseudo.CountsExactIff | multi-storage-file-system/backend_pseudo.go:57-60 | The uint64 counts are the real ones if and only if the whole tree has fewer than 2^64 objects. |
| Pseudo.OverflowDividesByZero | multi-storage-file-system/backend_pseudo.go:302-307 | A configuration that passes every check and whose count wraps to zero where the code then divides by it. |
| Pseudo.UnrankIsObject | multi-storage-file-system/backend_pseudo.go:289-325 | Every index below the count is the path of an object. |
| Pseudo.UnrankIsOnto | multi-storage-file-system/backend_pseudo.go:289-325 | Every object's path is the path of some index. |
| Pseudo.UnrankIncreases | multi-storage-file-system/backend_pseudo.go:289-325 | Larger indices have larger paths, in path-element order. |
| Pseudo.DirectoriesAreShallow | multi-storage-file-system/backend_pseudo.go:36-45 | No directory lies deeper than the deepest file, so startAfter always has room for an element and no depth index leaves the arrays. |
| PseudoRank.CheckPathElement | multi-storage-file-system/backend_pseudo.go:227-283 | What it returns says where the string falls among the names if and only if the string is not misread: not before the first name, before the last, and the print of a number that is not used. An exact match is reported if and only if the string reads back as a number in range. |
| PseudoRank.Search | multi-storage-file-system/backend_pseudo.go:266-282 | The binary search finds the last name at or before the string. |
| PseudoRank.AlwaysFallsIff | multi-storage-file-system/backend_pseudo.go:252-262 | The answer is right for every string if and only if no other number prints among the names and reads back. |
| PseudoRank.NamesExactIff | multi-storage-file-system/backend_pseudo.go:252-257 | Every name is reported as an exact match if and only if Sscanf reads every name back. |
| PseudoRank.StartToken | multi-storage-file-system/backend_pseudo.go:386-423 | The loop computes the token for any elements of startAfter; it is the number of objects at or before them where the names are right. |
| PseudoRank.TokenCounts | multi-storage-file-system/backend_pseudo.go:386-423 | Where directory names read back and no other number prints among the names, the token is the number of objects at or before startAfter, present or not, for every list of elements. |
| PseudoExact.TokensRightIff | multi-storage-file-system/backend_pseudo.go:386-423 | For names in order that is the exact condition: over all lists of elements, from any directory. |
| PseudoList.StringsRightIff | multi-storage-file-system/backend_pseudo.go:386-423 | The same over all startAfter strings, for formats that print one path element. |
| PseudoList.SplitJoins | multi-storage-file-system/backend_pseudo.go:390-390 | Splitting startAfter loses nothing, and only the last element may hold a slash. |
| PseudoList.JoinSplits | multi-storage-file-system/backend_pseudo.go:390-390 | Elements without a slash come back from the string they make. |
| PseudoList.ListingFromToken | multi-storage-file-system/backend_pseudo.go:425-479 | Listing from a right token is filtering the full listing. |
| PseudoList.ListObjects | multi-storage-file-system/backend_pseudo.go:352-496 | An error if both a token and startAfter are given; otherwise the page from there on, which ends at the end of the listing or exactly at the smallest limit in force, and has a next token if and only if objects remain. |
| PseudoList.ListAll | multi-storage-file-system/backend_pseudo.go:425-479 | Following nextContinuationToken to the end gives the full listing from its start, exactly once, for any page limits; where the names are right, that is everything after startAfter. |
| PseudoNames.DefaultFormatsIff | multi-storage-file-system/config.go:25-26 | With "dir_%08X" and "file_%08X" as Sprintf prints and Sscanf reads them, and files numbered below 2^32, names are in order, directories before files, and told from all other strings, if and only if the directories are numbered below 2^32 too. |
| PseudoNames.VerbIsExact | multi-storage-file-system/backend_pseudo.go:251-252 | A verb with a prefix and a width, in any base up to 16, prints the numbers that fit the width in order, reads each of them back, and never reads any other number. |
| PseudoNames.NineDigitsAreLost | multi-storage-file-system/backend_pseudo.go:404-406 | With the default format and a starting number of 2^32, which is accepted, a directory is reported as one that is not there, whatever follows it in startAfter; the token is right only if its object does come before. |
| PseudoNames.NineDigitsSkipObjects | multi-storage-file-system/backend_pseudo.go:404-406 | So listing after that directory's name skips the object in it. |
| PseudoNames.HundredCountsAll | multi-storage-file-system/backend_pseudo.go:257-262 | With directories 10 to 99 in format %d, which is accepted and in order, startAfter 100 counts all 90 directories where one is at or before it. |
| PseudoUint64.TokenIsExact | multi-storage-file-system/backend_pseudo.go:386-423 | With fewer than 2^64 objects in the tree, every sum and product on the way to the token fits, and the uint64 token is the exact one. |
| PseudoUint64.UnrankIsExact | multi-storage-file-system/backend_pseudo.go:289-325 | With fewer than 2^64 objects in the tree, the uint64 unranking gives the exact path and divides by no zero. |
| Lex.StringToInt | multi-storage-file-system/manifest_gen.go:974-990 | The number whose base-95 digits are the string's clipped bytes, padded with zeros. |
| Lex.IntToString | multi-storage-file-system/manifest_gen.go:992-1009 | A non-empty string that spells the number's digits up to trailing zeros. |
| Lex.Interpolate | multi-storage-file-system/manifest_gen.go:942-972 | The n-1 strings are evenly spaced: the number of each is the largest that is not past its share of the way from the first key to the last; or the first key alone if there is no room. |
| Lex.GapsAreEven | multi-storage-file-system/manifest_gen.go:940-972 | The distances from one key or split point to the next differ by at most one. |
| Lex.ClipIsNearest | multi-storage-file-system/manifest_gen.go:974-990 | A byte that is not printable counts as the printable byte nearest to it. |
| Lex.Gap | multi-storage-file-system/manifest_gen.go:947-959 | Two keys that differ at all differ by at least 95 squared. |
| Lex.OrderIsNumeric | multi-storage-file-system/manifest_gen.go:992-1009 | Byte order is numeric order, whatever trailing spaces were kept or trimmed. |
| Lex.SplitsIncrease | multi-storage-file-system/manifest_gen.go:942-972 | Up to 9025 workers, the n-1 split points strictly increase in byte order, for any two keys, printable or not. |
| Lex.SplitsAreBetween | multi-storage-file-system/manifest_gen.go:942-972 | Whatever the bytes of the two keys, split points are printable and equal neither key; a printable key is strictly on its side of each of them. |
| Lex.RoomIff | multi-storage-file-system/manifest_gen.go:955-959 | There is room to interpolate between two printable keys if and only if the first is smaller by more than trailing spaces. |
| RangeSplit.ListPrefix | multi-storage-file-system/backend.go:457-504 | One page, cut off at the first key that reaches stopAt; once stopped, nothing later was below stopAt. |
| RangeSplit.ListRange | multi-storage-file-system/manifest_gen.go:796-850 | Exactly the keys strictly between the two bounds, in order, whatever the pages. |
| RangeSplit.ListSplit | multi-storage-file-system/manifest_gen.go:661-700 | The workers' outputs in order are exactly the sorted keys that are no split point. |
| RangeSplit.CompleteIff | multi-storage-file-system/manifest_gen.go:661-688 | Nothing is lost if and only if no key equals a split point. |
| RangeSplit.ListFlat | multi-storage-file-system/manifest_gen.go:651-700 | The same end to end, from the first and last key and the number of workers. |
| RangeSplit.FirstKeyIsLostIff | multi-storage-file-system/manifest_gen.go:955-959 | Whatever the bytes of the keys, the first key is lost if and only if its number is not below the last key's; between printable keys, if and only if it is not smaller than the last by more than trailing spaces. |
| RangeSplit.FirstKeyIsLost | multi-storage-file-system/manifest_gen.go:651-688 | If the last key is estimated to be the first, the interpolation returns that key as the only split point, and the merged listing lacks it. |
| Bfs.OutstandingIsExact | multi-storage-file-system/manifest_gen.go:149-201 | In every interleaving the wait group is the number of queued directories, pending sends and listings in progress, inline ones included; no send on a closed channel, no negative count. |
| Bfs.ClosedMeansDone | multi-storage-file-system/manifest_gen.go:164-169 | Once the channel is closed it is empty and nobody is listing; every directory was listed exactly once, or lies below one that was dropped, and without errors none was. |
| Bfs.NothingIsLost | multi-storage-file-system/manifest_gen.go:356-430 | In every interleaving, with errors or without, what is listed, queued, still to do and dropped together is the tree, each directory once. |
| Bfs.DroppedAreChildren | multi-storage-file-system/manifest_gen.go:397-402 | Only subdirectories of a directory whose listing was begun are ever dropped, and only once a listing failed. |
| Bfs.ClosedIsFinal | multi-storage-file-system/manifest_gen.go:194-201 | After close nothing is sent or listed; workers can only leave. |
| Bfs.StuckExactly | multi-storage-file-system/manifest_gen.go:413-430 | A reached state can go no further if and only if the walk is over, or the channel is full and every worker is blocked on it at the depth limit. |
| Bfs.WalksEnd | multi-storage-file-system/manifest_gen.go:356-439 | Every schedule is finite: fewer than four steps for each directory and one for each worker. |
| BfsDeadlock.LowTreesAreSafe | multi-storage-file-system/manifest_gen.go:413-430 | No run deadlocks on a tree of at most the depth limit plus one levels, or plus two with more than one worker. |
| BfsDeadlock.DeadlockReachable | multi-storage-file-system/manifest_gen.go:413-430 | For every number of workers, channel capacity and depth limit, a tree one level higher, no two siblings of the same name, and a run that deadlocks on it. |
| BfsDeadlock.SafeHeightIsExact | multi-storage-file-system/manifest_gen.go:413-430 | No tree up to a height deadlocks in any run if and only if the height is at most that bound. |
| BfsDeadlock.SafeWalksFinish | multi-storage-file-system/manifest_gen.go:164-201 | A walk of a tree of safe height that can go no further is over, and without errors it listed every directory exactly once. |
| BigEndian.PackPreservesOrder | multi-storage-file-system/bptree.go:1297-1311 | Packed keys compare as the pairs they pack. |
| BigEndian.UnpackPack | multi-storage-file-system/bptree.go:1283-1311 | Unpacking a packed key gives the pair back. |
| BigEndian.PackUnpack | multi-storage-file-system/bptree.go:1283-1311 | Every key of at least eight bytes is the packing of what it unpacks to. |
| BigEndian.DueKeysInOrder | multi-storage-file-system/bptree.go:910-922 | Eviction-queue keys compare by time, then by inode number. |
| DirEntries.DirEntryMap.constructor | multi-storage-file-system/bptree.go:1479-1487 | Sixty-four empty shards are the empty map. |
| DirEntries.DirEntryMap.Put | multi-storage-file-system/bptree.go:1501-1507 | Succeeds if and only if the pair is absent, and then the one map gains exactly it. |
| DirEntries.DirEntryMap.Delete | multi-storage-file-system/bptree.go:1517-1523 | Succeeds if and only if the pair is present, and then the one map loses exactly it. |
| DirEntries.DirEntryMap.GetByBasename | multi-storage-file-system/bptree.go:1493-1499 | Looks the pair up in the one map. |
| DirEntries.DirEntryMap.GetIndexRange | multi-storage-file-system/bptree.go:1165-1187 | Bounds exactly the parent's entries in its shard. |
| DirEntries.DirEntryMap.GetByIndex | multi-storage-file-system/bptree.go:1131-1160 | The entry at the index, if there is one. |
| DirEntries.DirEntryMap.Children | multi-storage-file-system/bptree.go:1525-1539 | Enumerating the range gives the parent's children in name order, each once, and nothing else. |
| DirEntries.RangeExactIff | multi-storage-file-system/bptree.go:1165-1187 | The range is exact if and only if the parent's number plus one does not wrap, or the shard is empty. |
| DirEntries.ListingsAgree | multi-storage-file-system/bptree.go:1501-1523 | A parent's listing depends on its own entries only, so changes under one parent leave every other's as it was. |
| InodeCodec.PackValue | multi-storage-file-system/bptree.go:374-532 | Fills the buffer exactly; the length check at the end never fails, for every iteration order of the collections. |
| InodeCodec.LengthIsExact | multi-storage-file-system/bptree.go:403-423 | The length worked out beforehand is the length written. |
| InodeLayout.FieldsAreInPlace | multi-storage-file-system/bptree.go:425-530 | Each of the twenty fields is at its offset, big-endian, with lengths and counts before strings and collections, for every inode and every iteration order. |
| InodeLayout.PairAt | multi-storage-file-system/bptree.go:492-502 | The cache map is written as pairs of line and slot, in the order it was visited in. |
| InodeCodec.UnpackValue | multi-storage-file-system/bptree.go:535-748 | Reads the layout field by field; an error, a panic or the inode and the position after it. |
| InodeCodec.RoundTrip | multi-storage-file-system/bptree.go:374-748 | Unpacking a packing followed by anything gives the inode back and consumes exactly the packed length. |
| InodeCodec.ExactIff | multi-storage-file-system/bptree.go:472-484 | For every iteration order and any trailing bytes, unpacking a packing gives the inode back unchanged if and only if neither of its times is the Unix epoch itself. |
| InodeCodec.EpochIsLost | multi-storage-file-system/bptree.go:649-659 | An inode modified at the Unix epoch comes back with the zero time. |
| InodeCodec.PrefixIsRejected | multi-storage-file-system/bptree.go:535-748 | Every proper prefix of a packing is an error, never a panic. |
| InodeCodec.NumsPanicsIff | multi-storage-file-system/bptree.go:680-697 | The same for the counts of cacheMap and fhSet: exactly those get through whose bytes are not there but whose uint64 sum wraps to what is. |
| InodeCodec.TextPanicsIff | multi-storage-file-system/bptree.go:589-600 | On bytes that are no packing, a string's length check lets through exactly the lengths whose uint64 sum wraps. |

## Left out

- Backend unmount and manifest ingest: they do not keep the invariants of the cache and of the inode table, which are stated over runs without them.
- The per-inode-file disk cache, hole punching, mmap and the `allowReads` and inode-type tests of DoRead: the read theorems are for the arena modes.
- LRU order in the interleaving model: a pop names any slot of its list; `Lru` proves which one it is.
- Weak memory, and wrap-around of the 64-bit content generation: steps are sequentially consistent and the generation is unbounded.
- DataCacheProgress.StuckExactly: no bound on the steps of one read, because a read whose line is taken before each of its copies starts over each time.
- Real clocks: a time is a number given to each operation, and it does not move within one locked section.
- FileSystem.Fs.EndFetch: for files only "queued implies evictable" holds, because the end of a fetch does not touch the inode.
- FileSystem.Fs.Mount: the configuration's own check that mount names differ is a precondition.
- FileSystem.Fs.FindChild: the backend's answer for an unknown name is a parameter, and the background prefetch of a directory is not part of this model.
- `convertDirectoryToVirtual`, attribute filling, modes, sizes and modification times of inodes, and names "." and ".." as children.
- ReadDir.DirHandle.ReadDir: for one client of the handle, without listing errors and without changes by others between its calls; the tests on the inode and the handle before the loop are those of `FileSystem`.
- DoReadDirPlus and its B+Tree and manifest fast paths.
- PseudoList.ListObjects: the continuation token is the number its hexadecimal text stands for, the numbers printed into names do not wrap, and the leading "/" of returned paths is dropped.
- PSEUDO `listDirectory`, `statFile`, `readFile` and the path helpers: easier members of the same kind.
- Flat-directory hints, prefix discovery, the tail resumed after a flat prefix, and the estimate of the last key, which is any key here.
- Bfs.ClosedMeansDone: a directory is listed by the normal strategy; an error drops the rest of that directory's subdirectories.
- B+Tree internals, page flush and prune, and Pebble: a tree is a sorted sequence.
- RAM `listObjects`, and the S3, GCS and AIStore backends: a backend is a fixed object map listed in byte order.
- HTTP endpoint, metrics, telemetry, configuration parsing apart from the PSEUDO shape checks, the Python classes, the Rust credential bridge and the web UI.
