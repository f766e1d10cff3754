# The wrapper's stateful engines, modelled and proved

The program runs an Android game on the Switch. Underneath the foreign calls it
holds several engines that need no hardware to reason about, and each of them
promises to agree with something simpler. This project models them in Dafny and
proves that they do. `dafny verify dfyconfig.toml` checks everything.

**Structures that must look like something simpler**

- The asset pack: `PathOrder`, `AssetIndex`, `AssetListing`, `PackFormat`,
  `PackDamage`, `PackBuild`, `PackFiles`, `PackWriter`, `PackReader`. Building and loading
  are inverse on every file set the format allows; what loads is said byte by byte, and
  damage is found; the binary-searched index answers like a scan; the cached reader
  answers like an uncached one.
- The descriptor table of open pack files, `PackHandles`: reference counts,
  pins, draining closes and dup2, under every interleaving, without deadlock.
- The file whose physical size runs ahead of its logical size, `TrackedFile`,
  against a plain file of bytes.
- The in-process pipe, `Pipe` as a protocol and `PipeBuffer` as the ring in
  memory, and the counter in `EventFd`.

**Parsers, printers and codecs**

- JSON: `Utf8`, `JsonGrammar` (the grammar of RFC 8259 as parse trees),
  `JsonScanner` (the cursor code), `JsonTheorems` (the two agree exactly),
  `JsonAccess` (lookup without building a tree) and `JsonStrings` (decoding, and
  printing as its inverse).
- Java strings: `JavaStrings`, UTF-16 and modified UTF-8 over C strings.

**Protocols**

- JNI references: `JniHeap` (counts, owners and the release cascade), `JniRefs`
  (the tables and calls) and `JniThreads` (the same under every interleaving).
- Guest threads: `GuestThreads`, create, publish, borrow, exit, join, reap, and
  `GuestHistory`, a record as the history of what was done to it.
- The login: `LoginFlow` (what is never lost or leaked) and `LoginOutcomes` (which reply
  leads where, and what the machine then holds).
- Callbacks to the game: `CallbackQueue`, and `CallbackHistory`, its state as the history
  of the calls.
- Wait-and-wake loopers with re-entrant callbacks: `Looper`, and `LooperPolls`, what a
  poll hands out.

Each engine that changes things step by step has a class whose methods do what
the source does, loops included, and whose contracts equate the new state with a
specification function; the theorems are about those functions. Some of them retell
a run without those functions, from its events or its bytes alone, and so pin down
what the functions must be. In the protocols a step is what one thread does between
taking a lock and releasing it or waiting, and the theorems quantify over every
finite sequence of steps. The servers, the keyboards, the disk, native calls and
callbacks are inputs: each step takes their answer as a parameter. `Bytes` and
`Counting` hold shared vocabulary.

## What the proofs found

- A successful extension moves the logical size to the end of the whole write, so
  a write that the storage then cuts short leaves the file longer than the bytes
  written, and an empty write past the end extends the file. A failed extension can
  expose preallocated zeros, and an appending write starts at the physical size. The
  contracts of `TrackedFile` say exactly when the plain-file behaviour holds, and
  `RefusedExtension`, `AppendBehindAHole` and `RefusedPage` reach the failing cases.
- A sequential read that is refused after its first bytes returns them but leaves
  the cursor, so they come again (`TrackedFile.RefusedRead`).
- "Nothing is delivered between a focus change and the next completed render" is
  not kept: the dispatch of "login_switch_role" drains the callback queue in the
  middle of a frame. `CallbackQueue.SwitchRoleDeliversBeforeRender` is the run, and
  `DeliveredAfterRenderExactly` says which steps keep the promise. For the same
  reason eight events is the limit of a call, not of a frame; and with calls on two
  threads, events can reach Unity out of order (`DeliveredInOrderExactly`).
- A shutdown erases the login data but not the phase. If it meets a phase that
  needs data, a later start and tick would send a login request with empty
  ciphertexts; `LoginFlow.ShutdownKeepsExactly` says for which phases this cannot
  happen. The program starts once (source/main.c:2411) and shuts down only at exit
  (source/main.c:2027), so this is a run of the interface: `PromisesUntilExit` is
  about the runs of the program, the other login theorems about restarts whose
  shutdowns meet only harmless phases.
- Comparing a child only with the last one shown suffices exactly when no file of
  the directory is also a directory. A file system gives that, but the loader does
  not check it: `AssetListing.FileListedTwice` is a pack that shows a name twice.
- Two threads may join each other and wait forever; apart from circles of joins the
  thread registry does not block (`GuestThreads.JoinersCarryOn`).
- A poll that finds nothing reads the clock after releasing the lock, so it can time
  out over a wake that came in between; the wake is left for the next poll.
- Readiness for writing on a pipe means room for one byte, while a write of up to
  4096 bytes waits for room for all of it; `Pipe.PollOutIsWritable` gives the
  exact condition.
- The JSON string decoder by itself would let an unpaired low surrogate escape pass,
  and the scanner's table of escapes would match a NUL byte. Neither can happen on an
  accepted text: the scanner refuses such escapes, and the parser refuses NUL first.
- A changed byte in a pack's index is refused at load unless it is one of the four
  reserved bytes 20 to 23; one in the packed contents is never noticed at load, only by
  the check that follows a build (`PackDamage.DamagedIndex`, `DamagedPack`).
- The pack loader checks a path by its stored length while lookups use the text up
  to the first NUL, so the exact round trip is stated for paths that are C strings,
  which is what the builder has.

## Model

| member | source | states |
|---|---|---|
| `JsonTheorems.ParseAcceptsExactly` | source/json_min.c:14-231 | The parser accepts a byte string exactly when it is a JSON text of RFC 8259 (sections 2 to 7) with at most 32 nested containers, valid UTF-8, no U+0000 written or escaped, and surrogate escapes only in pairs; for every such reading the reported span and kind are those of the value, white space around it excluded. |
| `JsonTheorems.ParseSound` | source/json_min.c:217-231 | Whatever is accepted has a parse tree of the grammar that spells the input, and the span denotes the value of that tree. |
| `JsonTheorems.ParseComplete` | source/json_min.c:217-231 | Every text that a parse tree spells is accepted, with the span of the tree. |
| `JsonTheorems.StringSound` | source/json_min.c:84-124 | What the string scanner consumes is a quoted sequence of characters and escapes of the grammar. |
| `JsonTheorems.StringComplete` | source/json_min.c:84-124 | Every string of the grammar is consumed, to its closing quote. |
| `JsonTheorems.NumberSound` | source/json_min.c:158-182 | What the number scanner consumes is a numeral of the grammar. |
| `JsonTheorems.NumberComplete` | source/json_min.c:158-182 | Every numeral of the grammar is consumed whole when a delimiter or the end follows. |
| `JsonTheorems.ValueSound` | source/json_min.c:195-215 | A scanned value is a value of the grammar within the depth left. |
| `JsonTheorems.ValueComplete` | source/json_min.c:195-215 | A value of the grammar within the depth left is scanned to its end. |
| `JsonTheorems.ContainerSound` | source/json_min.c:126-156 | A scanned array or object is one of the grammar, one level deeper. |
| `JsonTheorems.ContainerComplete` | source/json_min.c:126-156 | Every array or object of the grammar within the depth left is scanned to its closing bracket. |
| `JsonScanner.JsonParse` | source/json_min.c:217-231 | The cursor loops compute the scanner functions that the theorems are about. |
| `JsonScanner.JsonCursor.SkipString` | source/json_min.c:84-124 | The loop over a string body leaves the cursor where the scanner function ends, and terminates. |
| `JsonScanner.JsonCursor.SkipContainer` | source/json_min.c:126-156 | Mutual recursion over members and elements agrees with the scanner function and terminates on every input. |
| `JsonScanner.JsonCursor.SkipNumber` | source/json_min.c:158-182 | The digit loops agree with the scanner function for numbers. |
| `JsonAccess.ObjectGetFindsFirst` | source/json_min.c:258-289 | On any object of an accepted text, lookup finds the first member whose decoded name is the key, with its exact span, or reports absence; never malformed input. |
| `JsonAccess.ArrayAccess` | source/json_min.c:291-331 | On any array of an accepted text, count and get agree with the elements of the parse tree: the index-th element with its span, or absence; never malformed input. |
| `JsonAccess.NameMatchesDecoded` | source/json_min.c:233-256 | The in-place name comparison holds exactly when the name, escapes decoded, is the ASCII key. |
| `JsonAccess.JsonObjectGet` | source/json_min.c:258-289 | The member loop computes the lookup function. |
| `JsonAccess.ArrayWalk` | source/json_min.c:291-322 | The element loop computes the walk function. |
| `JsonAccess.StringMatchesKey` | source/json_min.c:233-256 | The comparison loop computes the name test. |
| `JsonStrings.StringBytesAreMeanings` | source/json_min.c:385-430 | Decoding an accepted string yields the UTF-8 of the scalars its characters and escapes stand for. |
| `JsonStrings.JsonString` | source/json_min.c:385-430 | The decoding loop succeeds exactly when the text decodes and the buffer holds its length and a NUL, and then leaves exactly that text and the NUL. |
| `JsonStrings.AppendUtf8` | source/json_min.c:358-383 | A code point is appended exactly when its encoding and a NUL fit behind it. |
| `JsonStrings.PrintedStringRoundTrip` | source/combo_auth.c:378-403 | For every NUL-free text, the printed string is accepted as a JSON string and decodes back to the text. |
| `JsonStrings.StringBuilder.PrintString` | source/combo_auth.c:378-403 | The printing loop appends the quoted text, or marks the builder failed exactly when it does not fit. |
| `JsonStrings.StringBuilder.RawN` | source/combo_auth.c:347-357 | Raw text is appended whole or the builder fails for good. |
| `Utf8.ReadIsEncoded` | source/json_min.c:42-82 | What the UTF-8 reader returns is a scalar value whose shortest encoding it consumed. |
| `Utf8.EncodedIsRead` | source/json_min.c:42-82 | Every encoding of a scalar value is read back, whatever follows; with the row above, reader and writer invert each other. |
| `Utf8.ReadUtf8` | source/json_min.c:42-82 | The continuation-byte loop computes the reader function, overlong, surrogate and out-of-range forms refused. |
| `PathOrder.ValidRelativeExactly` | source/asset_pack.c:144-158 | A path is valid exactly when it is one or more components joined by slashes, none empty, "." or "..", none with a backslash or colon. |
| `PathOrder.CheckRelative` | source/asset_pack.c:144-158 | The character loop computes that test. |
| `PathOrder.InsertionPointDecidesPrefix` | source/asset_pack.c:221-241 | On a strictly sorted index the entry at the insertion point of a prefix starts with it exactly when some entry does. |
| `AssetIndex.Index.ComparePath` | source/asset_pack.c:200-212 | Binary search returns the insertion point, and finds the path exactly when it is in the index. |
| `AssetIndex.FindDirectory` | source/asset_pack.c:221-241 | One comparison at the insertion point of "path/" decides whether any entry lies below the directory. |
| `AssetIndex.OpenDirectory` | source/asset_pack.c:1233-1254 | The linear scan finds a directory exactly when some entry lies below it. |
| `AssetIndex.DirectoryTestsAgree` | source/asset_pack.c:221-241 | Running both tests on one path: below the root they agree unless the only entry is the empty path, and on another path exactly when it is valid and fits the buffer of the first test, or nothing lies below it; what the linear scan decides is stated too. |
| `AssetListing.ChildrenListedOnce` | source/asset_pack.c:1260-1293 | On an index of valid paths a listing always shows every immediate child of up to 255 bytes and nothing else. Each is shown once, and as a directory exactly when some entry lies below it, if and only if no file of the directory has another entry below its path. |
| `AssetListing.FileListedTwice` | source/asset_pack.c:1260-1293 | The failing listing: of the valid, ascending paths "a", "a-b", "a/b" the root shows "a" as a file, "a-b", and "a" again as a directory. |
| `AssetListing.ListingIsExact` | source/asset_pack.c:1260-1293 | On any strictly sorted index: the nodes are distinct and are exactly those of the entries not skipped, if and only if no file shown in the directory has another entry below its path. |
| `AssetListing.ClassIsContiguous` | source/asset_pack.c:1260-1293 | Of two entries that show the same child the later one shows a directory; all entries between them show that directory if and only if the earlier one does, and otherwise the earlier one is a file with the later one below its path. |
| `AssetListing.PackDir.ReadDirectory` | source/asset_pack.c:1260-1293 | Each call returns the next node of the listing and advances by exactly that one. |
| `PackFormat.FnvConcat` | source/asset_pack.c:114-121 | The checksum of a concatenation is the checksum continued, so it does not depend on how the data is cut into chunks. |
| `PackFormat.FnvBytes` | source/asset_pack.c:114-121 | The byte loop computes the checksum function. |
| `PackFormat.LoadPair` | source/asset_pack.c:249-330 | The validating loader computes the acceptance function: every header, bounds, alignment, order, path and checksum test, in any failure yielding nothing. |
| `PackDamage.LoadsExactly` | source/asset_pack.c:249-330 | Over raw bytes: the loader accepts a pack and an index exactly when each magic, version, client, pack id, both sizes and the data checksum agree, the stored index checksum is that of the entries and paths, and each entry is aligned, inside the pack, and has a valid path in ascending order. |
| `PackDamage.OneByteChangesChecksum` | source/asset_pack.c:114-121 | Changing one byte of any data changes its checksum, whatever it started from. |
| `PackDamage.DamagedIndex` | source/asset_pack.c:249-330 | An accepted index with one byte changed is accepted again exactly if the byte is one of the four reserved ones. |
| `PackDamage.DamagedPack` | source/asset_pack.c:249-330 | A pack with one byte changed is accepted again exactly if the byte lies behind the fields of its header: the contents are not checked at load. |
| `PackFormat.LoadedIsSorted` | source/asset_pack.c:249-330 | An accepted index is strictly sorted and every entry lies inside the pack. |
| `PackFormat.EntryRoundTrip` | source/asset_pack.c:304-320 | An index record read back gives the entry it was written for. |
| `PackBuild.Layout` | source/asset_pack.c:470-488 | Entries start on multiples of 16, behind the header and behind each other, so none overlap. |
| `PackFiles.SetRoundTrip` | source/asset_pack.c:446-611 | Build, load, read by path, for files found in any order: if the format allows the set, the pack loads, every path reads back exactly its file, byte for byte, and every other path fails; if it does not, the limits of the builder or the loader refuse it. |
| `PackFiles.PackableExactly` | source/asset_pack.c:446-506 | A file set can be packed exactly when it has 1 to 100000 files, paths that are valid and distinct, and at most 64 MiB of path table; the order in which the files were found does not matter. |
| `PackBuild.ReadAll` | source/asset_pack.c:1200-1217 | Reading by path is lookup in the index: it succeeds exactly on valid paths of the index, and returns the bytes of the entry. |
| `PackBuild.SortSorts` | source/asset_pack.c:357-360 | Sorting by path orders the files and keeps them all. |
| `PackWriter.Build` | source/asset_pack.c:446-611 | The builder succeeds exactly when the format allows the file set, in whatever order it was found, and writes exactly the two images of the sorted set. |
| `PackWriter.LayOut` | source/asset_pack.c:470-488 | The layout loop computes each aligned offset, the pack size and the path-table size, and refuses an over-long table. |
| `PackWriter.WritePack` | source/asset_pack.c:508-562 | The chunked copy writes the pack image and its running checksum equals that of the contents. |
| `PackWriter.WriteIndex` | source/asset_pack.c:569-606 | The index written is the index image. |
| `PackWriter.VerifyPackData` | source/asset_pack.c:413-444 | Re-reading the entries in 1 MiB chunks accepts exactly when their concatenation has the expected checksum. |
| `PackWriter.SlicesAreContents` | source/asset_pack.c:413-444 | The entries of a built pack slice out the contents of the files, in order. |
| `PackReader.CacheIsInvisible` | source/asset_pack.c:933-1114 | Over any sequence of reads and seeks, whatever memory and the disk answer, each call answers as a file without a cache would at that position, except that a failure may cut a read short; the position advances by exactly the bytes returned. |
| `PackReader.CachedEqualsUncached` | source/asset_pack.c:933-1114 | Over any sequence of reads and seeks without a failure, the answers are those of a file without a cache. |
| `PackReader.OpenFile.Read` | source/asset_pack.c:933-978 | A read answers exactly as `CachedAnswer` says: all that is visible at the shared position when memory and the disk work; otherwise what the cache held, or an error if that is nothing, leaving the position. The rest of the buffer stays, and the disk is read at most once. |
| `PackReader.OpenFile.ReadThroughCache` | source/asset_pack.c:943-978 | The loop over cached pieces and one 64 KiB window gathers exactly the visible bytes, or the cached part of them when the window cannot be loaded, and leaves the cache where `NextWindow` says. |
| `PackReader.OpenFile.ReadHandleAt` | source/asset_pack.c:911-931 | A positional read returns the part of the entry that is visible at the offset, or an error exactly for a directory or when the disk is asked and fails. |
| `PackReader.OpenFile.LSeek` | source/asset_pack.c:1062-1114 | A seek lands on offset, position + offset or size + offset, as asked; it is refused as invalid exactly when that is before the start, and as too large exactly when that or the base exceeds the largest offset; otherwise the position stays. |
| `PackReader.SeeksFrom` | source/asset_pack.c:1062-1114 | The same of a file without a cache. |
| `PackReader.ReadsCompose` | source/asset_pack.c:933-978 | Reading in any number of pieces returns what one read of the total length returns. |
| `PackHandles.TableIsSafe` | source/asset_pack.c:693-909 | After any interleaving: references equal the slots pointing at an open file, a descriptor has one slot at most, live and freed files are disjoint; once idle, a file is freed exactly when no slot points at it. |
| `PackHandles.StepKeeps` | source/asset_pack.c:693-909 | Every critical section of open, dup, dup2, read, close keeps the invariant. |
| `PackHandles.FreedOnce` | source/asset_pack.c:687-691 | The section that frees a file finds it in memory, unreferenced and never freed before, owed by no other thread, and leaves nobody owing it. |
| `PackHandles.OnlyDestroyFrees` | source/asset_pack.c:687-691 | No other section frees anything or takes a file out of memory. |
| `PackHandles.FreedForever` | source/asset_pack.c:687-691 | No run brings a freed file back. |
| `PackHandles.PinHolds` | source/asset_pack.c:711-725 | While a call keeps its pin, whatever the others do, the slot is not freed and keeps its open file, which stays in memory. |
| `PackHandles.InstallNames` | source/asset_pack.c:741-757 | Installing makes an unused descriptor name the new file, adds one reference to it, and leaves what every other descriptor names. |
| `PackHandles.BeginCloseNames` | source/asset_pack.c:1176-1186 | Once a close, or a dup2 onto it, has begun, a descriptor cannot be opened any more but still names its file; the others are untouched and no reference moves. |
| `PackHandles.FinishCloseNames` | source/asset_pack.c:1186-1198 | A close that ends leaves the descriptor naming nothing and its file with one reference less; the others are untouched. |
| `PackHandles.FillTargetNames` | source/asset_pack.c:855-889 | dup2 onto an unused descriptor: it names the source's file, which gains one reference, or nothing changes; the others are untouched. |
| `PackHandles.ReplaceTargetNames` | source/asset_pack.c:878-907 | dup2 onto an open descriptor: if the native call succeeds it names the source's file, and one reference moves from the old file to it unless they are the same; if it fails it opens the file it had and no reference moves; the others are untouched. |
| `PackHandles.OthersKeepNames` | source/asset_pack.c:693-909 | No other section changes what any descriptor names, or the references of a file. |
| `PackHandles.Dup2NamesSource` | source/asset_pack.c:829-909 | After a successful dup2 both descriptors name the file the source named. |
| `PackHandles.WaitsGoDown` | source/asset_pack.c:829-909 | Waiting goes down a rank: uses wait for nothing, dup2 for closes and uses, the close of a dup2 source for that dup2; so waits form no cycle. |
| `PackHandles.StuckWaits` | source/asset_pack.c:829-909 | A call that cannot go on waits for some thread. |
| `PackHandles.SomeoneCanGo` | source/asset_pack.c:829-909 | No deadlock: while any call is under way, some call can run its next section. |
| `PackHandles.PackTable.FindHandle` | source/asset_pack.c:693-703 | The slot loop finds an active (or also closing) slot of the descriptor, or none exists. |
| `PackHandles.PackTable.InstallHandle` | source/asset_pack.c:741-757 | Installing takes a free slot and one reference, or fails exactly when the table is full or the descriptor is there; afterwards the descriptor names the file, and every other what it named. |
| `PackHandles.PackTable.AcquireHandle` | source/asset_pack.c:711-718 | Pins the active slot of the descriptor, if any. |
| `PackHandles.PackTable.ReleaseHandle` | source/asset_pack.c:720-725 | Gives up a pin. |
| `PackHandles.PackTable.BeginCloseFd` | source/asset_pack.c:1176-1186 | Close marks the slot and starts to drain: the descriptor cannot be opened any more, the others can. |
| `PackHandles.PackTable.FinishCloseFd` | source/asset_pack.c:1186-1198 | A drained close frees the slot and drops its reference; the descriptor names nothing, every other what it named; the last reference leaves the file to be freed. |
| `PackHandles.PackTable.TakeTarget` | source/asset_pack.c:855-889 | The section of dup2 that meets the table: it starts draining an open target, takes a free slot for an unused one unless the native call fails or there is none, or waits for the thread that closes it. |
| `PackHandles.PackTable.ReplaceDrained` | source/asset_pack.c:878-907 | A drained target names the source's file and its own file loses a reference; a failed native call makes it open its own file again; every other descriptor names what it did. |
| `JniHeap.DropKeeps` | source/jni_fake.c:252-310 | Releasing references, with every cascade this starts, keeps each count equal to the number of remaining owners. |
| `JniHeap.DropFreesExactly` | source/jni_fake.c:252-310 | After a release an object is alive exactly when it still has an owner. |
| `JniHeap.ReachableSurvives` | source/jni_fake.c:252-310 | Nothing is freed early: what remaining owners reach through any chain of objects outlives the release. |
| `JniHeap.DropOnlyFrees` | source/jni_fake.c:252-310 | Survivors keep their contents, nothing freed comes back, and counts only go down. |
| `JniHeap.RetainKeeps` | source/jni_fake.c:217-226 | One more owner, one more count. |
| `JniHeap.WithKidKeeps` | source/jni_fake.c:2114-2125 | Exchanging an array element exchanges exactly one owner for another. |
| `JniRefs.JniEnv.FreeRef` | source/jni_fake.c:252-310 | The recursive release terminates and computes the cascade. |
| `JniRefs.JniEnv.RetainRef` | source/jni_fake.c:217-250 | Retains exactly when the count is neither zero nor at its limit. |
| `JniRefs.JniEnv.RegLocal` | source/jni_fake.c:175-186 | The owner in hand goes to a local slot, or is dropped when the table is full and cannot grow. |
| `JniRefs.JniEnv.DeleteLocal` | source/jni_fake.c:330-346 | Drops the newest slot holding the reference and moves the frame marks above it. |
| `JniRefs.ShiftedFrames` | source/jni_fake.c:330-346 | When a local slot goes, every frame mark still delimits the locals it delimited, less that slot. |
| `JniRefs.JniEnv.NewLocalRef` | source/jni_fake.c:1612-1617 | A new local is one more owner; null exactly for null, when the object cannot be retained, or without room, and then the heap is as before. |
| `JniRefs.JniEnv.NewGlobalRef` | source/jni_fake.c:1577-1604 | Counts one alias more, or opens an entry that retains the object; fails exactly for null, at the alias or table limit, or when the object cannot be retained. |
| `JniRefs.JniEnv.DeleteGlobalRef` | source/jni_fake.c:1605-1610 | An alias counts down; the last one removes the entry and drops its owner. |
| `JniRefs.JniEnv.PushLocalFrame` | source/jni_fake.c:1675-1680 | Pushes the mark and room for the capacity asked for, or changes nothing. |
| `JniRefs.JniEnv.PopLocalFrame` | source/jni_fake.c:1681-1698 | Releases exactly the slots of the frame, minus one occurrence of the result, which moves to the frame below; another result is retained anew. |
| `JniRefs.JniEnv.AllocObject` | source/jni_fake.c:1566-1575 | A new object with the new local as its one owner; null exactly when there is no memory for it or no room for the local, and then nothing is left of it. |
| `JniRefs.JniEnv.MakeHolder` | source/jni_fake.c:799-827 | A handler or message owns its callback or target; null exactly when there is no memory, the held object cannot be retained, or there is no room for the local, and then every count is as before. |
| `JniRefs.JniEnv.NewObjectArray` | source/jni_fake.c:2074-2089 | One owner more per element; null exactly for a negative length, without memory or room, or when the initial element cannot be retained that often, and then every count is as before. |
| `JniRefs.JniEnv.GetObjectArrayElement` | source/jni_fake.c:2104-2113 | The element becomes a new local, or null exactly when there is no such element, it cannot be retained, or there is no room, and then the heap is as before. |
| `JniRefs.JniEnv.SetObjectArrayElement` | source/jni_fake.c:2114-2125 | Retains the new element before dropping the old one; the same element changes nothing. |
| `JniRefs.JniEnv.SetPendingException` | source/jni_fake.c:316-323 | The pending exception is an owner; replacing it drops the previous one. |
| `JniRefs.JniEnv.EnqueueMessage` | source/jni_fake.c:905-944 | The queue owns the message; refused exactly when it is no message, cannot be retained, or the worker cannot be had, and then the heap is as before. |
| `JniRefs.JniEnv.TakeMessage` | source/jni_fake.c:889-898 | The oldest message moves from the queue to the dispatching thread, which owns it while other calls run. |
| `JniRefs.JniEnv.ReleaseMessage` | source/jni_fake.c:898-901 | After dispatch the thread drops the message. |
| `JniRefs.JniEnv.ThreadExitCleanup` | source/jni_fake.c:2456-2463 | A thread that ends drops all its locals and its pending exception. |
| `JniThreads.CountsAreOwners` | source/jni_fake.c:188-346 | In every state that any interleaving of threads reaches, at the level of single count changes and moves of references: each object's count is the number of its owners, in all threads' tables and running calls, the global table, the queue and other objects; it lives exactly while it has one; and nothing owned is freed. |
| `JniThreads.StepKeeps` | source/jni_fake.c:188-346 | Each such step keeps the owner equation. |
| `JniThreads.FreedByLastOwner` | source/jni_fake.c:228-310 | An object is freed exactly by the release of its last owner. |
| `JniThreads.FreedForGood` | source/jni_fake.c:228-310 | No run brings a freed object back. |
| `JniThreads.ReleasesAreDrop` | source/jni_fake.c:228-310 | The releases one thread makes for a call, when no other comes between, are the recursive cascade `Drop` of the calls. |
| `JniThreads.EnvSeesWorld` | source/jni_fake.c:188-346 | What one thread's tables and the references owned elsewhere satisfy in every call is the owner equation of the whole. |
| `JniThreads.NewLocalIsRun` | source/jni_fake.c:1612-1617 | NewLocalRef, and GetObjectArrayElement of the element: retain, then take a local slot; the result is that of the call. |
| `JniThreads.NewGlobalIsRun` | source/jni_fake.c:1577-1604 | NewGlobalRef with a new entry, as a run of steps. |
| `JniThreads.DeleteLocalIsRun` | source/jni_fake.c:330-348 | DeleteLocalRef: the slot is emptied, then its reference released; the result is that of the call. |
| `JniThreads.DeleteGlobalIsRun` | source/jni_fake.c:1605-1611 | DeleteGlobalRef of the last alias, as a run of steps. |
| `JniThreads.PopFrameIsRun` | source/jni_fake.c:1681-1702 | PopLocalFrame, and with no result the end of a thread: slot after slot is released but for the first one holding the result; the heap is that of the call. |
| `JniThreads.SetElementIsRun` | source/jni_fake.c:2114-2125 | SetObjectArrayElement: retain the new element, exchange, release the old one. |
| `JniThreads.SetPendingIsRun` | source/jni_fake.c:316-323 | Setting or clearing the pending exception, as a run of steps. |
| `JniThreads.MakeHolderIsRun` | source/jni_fake.c:799-827 | A handler or message is made with what it holds, as a run of steps. |
| `JniThreads.EnqueueIsRun` | source/jni_fake.c:905-944 | EnqueueMessage, as a run of steps. |
| `JniThreads.DispatchIsRun` | source/jni_fake.c:889-901 | Taking a message and releasing it after dispatch, as a run of steps. |
| `JavaStrings.NewStringReadsBack` | source/jni_fake.c:1958-1991 | A string made from UTF-16 reads back as the units before the first zero, with exactly the unpaired surrogates replaced by U+FFFD. |
| `JavaStrings.RoundTripExactly` | source/jni_fake.c:1958-1991 | The round trip is the identity exactly on well-formed UTF-16 without a zero unit. |
| `JavaStrings.Next` | source/jni_fake.c:464-482 | On any bytes one decoding turn moves forward, never past the end, and yields a scalar value. |
| `JavaStrings.NextOfEncoded` | source/jni_fake.c:464-482 | On UTF-8 the turn reads exactly one scalar value. |
| `JavaStrings.Utf16Length` | source/jni_fake.c:484-489 | The length loop counts exactly the units the string exposes. |
| `JavaStrings.Utf8ToUtf16` | source/jni_fake.c:491-506 | The decoding loop writes exactly those units into a buffer of that length. |
| `JavaStrings.WriteUtf8` | source/jni_fake.c:1958-1980 | NewString writes the UTF-8 of the sanitised text and a NUL into four bytes a unit and one. |
| `JavaStrings.ModifiedFits` | source/jni_fake.c:508-530 | Modified UTF-8 has the size computed first and no NUL inside. |
| `JavaStrings.ShortestForm` | source/jni_fake.c:508-513 | A unit takes one byte exactly from 1 to 0x7f, three exactly from 0x800 on, otherwise two; a unit that is no surrogate and not zero is written as its UTF-8. |
| `JavaStrings.ModifiedIsInjective` | source/jni_fake.c:515-530 | Different UTF-16 has different modified UTF-8. |
| `JavaStrings.Utf16ToModified` | source/jni_fake.c:515-530 | The two passes allocate and fill exactly the modified UTF-8 and a NUL. |
| `GuestThreads.RegistryIsSafe` | source/imports.c:984-1043 | For any interleaving: guest code runs only in published records; nobody borrows after the exit drain or from the native join on; a record is natively joined at most once, after its thread ended; a freed one has no borrower or running thread. |
| `GuestThreads.RecordsOnlyAge` | source/imports.c:1347-1424 | Over any run the state never goes back, a claim stays, borrowers of an exiting or claimed record only leave, and a freed record stays as it is. |
| `GuestHistory.RecordsAreHistory` | source/imports.c:1347-1424 | Over every run, told by the events alone: a record is detached, published under its thread, listed, ready, exiting or exited, claimed, joined, quarantined and freed exactly if the events made it so, and has as many borrowers as took it and did not give it back. |
| `GuestThreads.StepKeeps` | source/imports.c:1347-1424 | Each step keeps the invariant and moves the state by at most one stage of CREATING, LIVE, EXITING, EXITED. |
| `GuestThreads.NoUseAfterFree` | source/imports.c:1167-1663 | No actor has a step left on a record that was freed. |
| `GuestThreads.SomeoneCarriesOn` | source/imports.c:1347-1424 | While anyone is busy with a record, some actor of that record can carry on, as far as the registry is concerned. |
| `GuestThreads.JoinersCarryOn` | source/imports.c:1599-1643 | Over the whole registry, with threads that join threads: unless they join in a circle, while anyone is busy some actor can carry on that is not itself inside a join. |
| `GuestThreads.JoinEachOtherIsStuck` | source/imports.c:1599-1643 | The circle: a run, which the registry allows, after which two threads join each other and nobody can carry on. |
| `GuestThreads.Registry.Acquire` | source/imports.c:997-1008 | Borrows the first record of the thread exactly when it is live and unclaimed, and otherwise changes nothing. |
| `GuestThreads.Registry.Release` | source/imports.c:1010-1016 | Gives a lease back. |
| `GuestThreads.Registry.TakeSnapshot` | source/imports.c:1018-1043 | Borrows every live unclaimed record, in list order, or none when they do not fit. |
| `GuestThreads.Registry.ClaimReapable` | source/imports.c:1157-1176 | Claims the first detached, returned, exited, unborrowed, unclaimed record, or none exists. |
| `GuestThreads.Registry.ClaimForJoin` | source/imports.c:1606-1623 | Claims the first record of the thread exactly when it is not external, detached or claimed, and the caller is another thread. |
| `GuestThreads.Registry.MarkDetached` | source/imports.c:1645-1660 | Detaches the first record of the thread exactly when it is not external, detached or claimed, and the reaper runs. |
| `GuestThreads.Registry.PublishRecord` | source/imports.c:1580-1589 | Links the record at the front and makes it live if the child is ready. |
| `GuestThreads.Registry.FinishReaping` | source/imports.c:1178-1198 | A successful join unlinks and frees the record; a failed one quarantines it. |
| `GuestThreads.Registry.RegisterExternal` | source/imports.c:1303-1328 | Registers a foreign thread unless its identity is known. |
| `GuestThreads.Registry.FinishExternal` | source/imports.c:1234-1254 | An external record is unlinked and freed once its borrowers left. |
| `LoginFlow.NothingIsLost` | source/combo_auth.c:2282-2296 | In every run every queued or running phase carries what its runner needs; the branches for lost state, an unsupported method or no selection are never taken; the retry flags are never both set and factor prompts stay within 16. |
| `LoginOutcomes.EntersExactly` | source/combo_auth.c:2074-2936 | Over events: each end, each piece of work and the idle state is entered exactly by what brings it about. Success by a game login whose answer was queued or by a restored session; a cancel by a cancelled keyboard or captcha; each rejection, challenge and unsupported verifier by its own replies; every end needs its callback queued, and otherwise it is FAILED. |
| `LoginOutcomes.RepliesMove` | source/combo_auth.c:2074-2936 | The same of every reply, also when the phase comes back to what it was before. |
| `LoginOutcomes.ProcessIs` | source/combo_auth.c:1691-1811 | A verification state is malformed, unsupported, settled, to be announced, or asks for one method, as its lists say; each leads to its own outcome. |
| `LoginOutcomes.AsksOne` | source/combo_auth.c:1750-1811 | The method asked for is one, and one the client supports. |
| `LoginOutcomes.UsesWhatWasTold` | source/combo_auth.c:2074-2936 | Over a run: the password login uses the ciphertexts typed last, the game login the token and user issued last, a check the header and ticket of the last challenge or state, a captcha the last challenge, and a verification the factor typed last. |
| `LoginOutcomes.LoggedInHolds` | source/combo_auth.c:2282-2425 | After an answer with a token and a user the game login is queued with exactly these, and nothing else is kept. |
| `LoginOutcomes.SessionMoves` | source/combo_auth.c:2515-2640 | TLS stands from the first preflight that passed; a session is looked for once until a shutdown; a replay is pending exactly from a restored session until the next request, a stored session, an invalidation or a shutdown; and requests are counted as accepted. |
| `LoginFlow.OneCallback` | source/combo_auth.c:970-1001 | Each accepted request queues at most one completion callback: none while under way, exactly one at every end but FAILED. |
| `LoginFlow.SecretsAreErased` | source/combo_auth.c:289-345 | At every end all ciphertexts, tokens and tickets are erased; after the password login no ciphertext remains; a factor exists only while it waits to be sent. |
| `LoginFlow.ShutdownKeepsExactly` | source/combo_auth.c:2977-2989 | A shutdown, which erases data but not the phase, keeps the invariant exactly in phases that need nothing collected. |
| `LoginFlow.LoginLostByShutdown` | source/combo_auth.c:2977-2989 | The failing run of the interface: credentials queued, shutdown, start, tick: the login request is made with empty ciphertexts. The program itself never starts again after a shutdown. |
| `LoginFlow.PromisesUntilExit` | source/combo_auth.c:2977-2989 | In every run of the program, where the shutdown comes at exit and may interrupt any phase: no runner finds its data missing, completions are counted as above, and no secret is left behind. |
| `LoginFlow.ReplayedOnce` | source/combo_auth.c:2553-2590 | A saved session is replayed at most once between two shutdowns. |
| `LoginFlow.CombinationsKeep` | source/combo_auth.c:1774-1811 | The combination taken is one this client supports in full, and its first method has data for the next phase. |
| `LoginFlow.NextMethodIsChosen` | source/combo_auth.c:1750-1768 | The method asked for is a chosen one that is not verified yet, and none exists only when all are. |
| `LoginFlow.PassportKeeps` | source/combo_auth.c:2282-2425 | Every answer to the password login leads to a phase that has its data or to an end. |
| `LoginFlow.LoginMachine.RequestLogin` | source/combo_auth.c:2515-2618 | A request is accepted only at an end of the previous one, and replays, or queues, accordingly. |
| `LoginFlow.LoginMachine.RunPassportLogin` | source/combo_auth.c:2282-2425 | The game login is queued exactly by an answer with token and user, and holds just these; the other branches compute the transition and keep the invariant. |
| `LoginFlow.LoginMachine.RunComboLogin` | source/combo_auth.c:1921-2013 | Success exactly when the answer's callback was queued, which happens before erasing; a refusal ends as COMBO_REJECTED; anything else is an error. |
| `LoginFlow.LoginMachine.ProcessVerifierInfo` | source/combo_auth.c:1691-1811 | The loops over chosen methods and combinations compute the next verification phase. |
| `LoginFlow.LoginMachine.CollectCredentials` | source/combo_auth.c:2651-2693 | Two keyboards and two encryptions: the login is queued, with these ciphertexts, exactly when all four succeed. |
| `LoginFlow.LoginMachine.CollectVerification` | source/combo_auth.c:2701-2751 | A code must be six digits, a password encrypts, and exactly then it is queued as the factor; cancelling ends; anything else asks again or ends. |
| `LoginFlow.LoginMachine.CollectGeetest` | source/combo_auth.c:2753-2926 | Without a solved captcha the phase is queued again; with one the login is retried with it. |
| `LoginFlow.LoginMachine.RunVerifierVerify` | source/combo_auth.c:2192-2238 | The factor is erased before the answer; a wrong factor asks again. |
| `TrackedFile.TrackedFile.PrepareWrite` | source/genshin_compat.c:935-1011 | A successful preparation extends the visible file by zeros to the end of the write; success is decided exactly by what the storage answers. A failed one leaves the file unchanged exactly when the write fits or nothing is preallocated past the end. |
| `TrackedFile.TrackedFile.Extend` | source/genshin_compat.c:972-1011 | The rounded extension and its exact-size fallback keep logical within physical and zeros between them. |
| `TrackedFile.TrackedFile.PRead` | source/genshin_compat.c:1120-1174 | A positional read returns bytes of the visible file only, exactly as many as the pages the storage delivers, and all of them when it obeys. |
| `TrackedFile.TrackedFile.PWrite` | source/genshin_compat.c:1176-1234 | The result and the exact contents left behind, for every answer of the storage: a complete write is a plain write; one cut short is a plain short write exactly when it fits the file, and so for an empty write. |
| `TrackedFile.TrackedFile.Read` | source/genshin_compat.c:1267-1284 | A sequential read gathers visible bytes from the cursor; the bytes and the new cursor are exactly what `Gathered` says of the answers of the storage, and when no call is refused it is complete and the cursor advances by it. |
| `TrackedFile.CursorFollowsExactly` | source/genshin_compat.c:1274-1283 | The cursor advances by the bytes returned, whatever the storage refuses, exactly for reads that one page serves; otherwise a refused later call returns bytes and leaves the cursor. |
| `TrackedFile.TrackedFile.Write` | source/genshin_compat.c:1286-1302 | The result, contents and cursor for every answer of the storage: at the cursor, or at the physical end when appending; an append is a plain append exactly when nothing is preallocated. |
| `TrackedFile.TrackedFile.Truncate` | source/genshin_compat.c:1472-1480 | A successful truncation resizes the visible file, cutting or zero-filling. |
| `TrackedFile.TrackedFile.Finalize` | source/genshin_compat.c:1045-1103 | The last close leaves on disk exactly the visible file when the trim succeeds, and zeros behind it when it fails; other closes change nothing. |
| `TrackedFile.ShortWriteIsPlainExactly` | source/genshin_compat.c:1200-1225 | What a write of which only a part arrived leaves behind is a plain short write exactly when the whole write fits the file; used in the contract of `PWrite`. |
| `TrackedFile.FailedExtensionIsPlainExactly` | source/genshin_compat.c:993-1000 | What a failed extension leaves behind is the file as it was exactly when the write fits or nothing is preallocated past the end; used in the contracts of `PrepareWrite` and `PWrite`. |
| `TrackedFile.AppendIsPlainExactly` | source/genshin_compat.c:1290-1295 | A write at the physical end is a plain append exactly when nothing is preallocated; used in the contract of `Write`. |
| `TrackedFile.RefusedExtension` | source/genshin_compat.c:993-1000 | The failing case is reached: after one bulk write just past 1 MiB, a refused extension leaves the file almost 1 MiB longer. |
| `TrackedFile.AppendBehindAHole` | source/genshin_compat.c:1290-1295 | The same file: an append of one byte leaves a hole of zeros before it. |
| `TrackedFile.RefusedPage` | source/genshin_compat.c:1207-1225 | The same file: a write whose second page is refused leaves the file a page longer than the bytes that arrived. |
| `TrackedFile.RefusedRead` | source/genshin_compat.c:1279-1280 | A read whose second call is refused returns a page and leaves the cursor, so the next read returns the same bytes. |
| `TrackedFile.PlainWriteRead` | source/genshin_compat.c:1176-1234 | The reference file: a write is read back, fills holes with zeros and leaves other bytes alone. |
| `Pipe.BytesFlowInOrder` | source/fakefd.c:358-475 | For any interleaving of readers, writers, dups, closes and capacity changes: bytes read, then bytes buffered, are the bytes put in, in order; every write puts in a prefix of its data; a write of at most 4096 bytes is one segment or nothing. |
| `Pipe.PipeOutlivesItsUsers` | source/fakefd.c:73-85 | Reference counts equal descriptors and calls under way, so no call or descriptor meets a freed pipe. |
| `Pipe.PollInIsReadable` | source/fakefd.c:616-618 | A read does not wait exactly when poll reports data or a hang-up. |
| `Pipe.PollOutIsWritable` | source/fakefd.c:619-623 | A write does not wait exactly when poll reports an error, or reports room and the write is longer than 4096 bytes or fits. |
| `Pipe.SmallWritesAreWhole` | source/fakefd.c:367-396 | One section moves all of a small write or none of it. |
| `Pipe.CapacityKeeps` | source/fakefd.c:539-567 | A capacity change keeps the invariant and the buffered bytes. |
| `PipeBuffer.PipeBuffer.WriteSection` | source/fakefd.c:358-399 | The ring buffer section appends what there is room for, or nothing of a small write that does not fit whole, and ends as the protocol says: waiting, again, broken pipe, or the bytes moved. |
| `PipeBuffer.PipeBuffer.Put` | source/fakefd.c:385-391 | Two copies around the end of the ring append the bytes in order. |
| `PipeBuffer.PipeBuffer.ReadSection` | source/fakefd.c:450-474 | The byte loop takes the oldest bytes, as many as asked for or there are; it waits, or says again, exactly on an empty pipe with a writer. |
| `PipeBuffer.PipeBuffer.SetCapacity` | source/fakefd.c:539-567 | A new capacity is a multiple of 4096 no smaller than the unread bytes, at most 1 MiB, and keeps those bytes in order; refused exactly for a bad argument, too many unread bytes, or without memory for another buffer, and then nothing changes. |
| `EventFd.EventCounter.WriteSection` | source/fakefd.c:337-357 | Adds the value, or waits exactly when the sum would exceed the maximum. |
| `EventFd.EventCounter.ReadSection` | source/fakefd.c:429-447 | Takes all of the counter, or one as a semaphore; nothing is lost. |
| `EventFd.PollIsExact` | source/fakefd.c:610-613 | Readiness is exact for reads, and for some write that adds. |
| `CallbackQueue.DrainedInOrder` | source/combo_bridge.c:185-300 | Whatever drains run at once, nested or on several threads: events leave the queue strictly in order of arrival, none is delivered twice, the byte counter is the sum of the queued payloads and within capacity, and no call of combo_bridge_after_render takes more than eight. |
| `CallbackQueue.TakenAfterCall` | source/combo_bridge.c:249-286 | Between a change of focus and taking an event, combo_bridge_after_render was called. |
| `CallbackQueue.DeliveredAfterRenderExactly` | source/combo_bridge.c:281-300 | That a render completed between the last change of focus and a delivery holds for everything that follows a step exactly when the step is no combo_bridge_after_render that may drain before such a render, and no change of focus while a drain is about to call Unity. |
| `CallbackQueue.RespectfulRunsDeliverAfterRender` | source/main.c:2748-2764 | Runs whose calls come after a completed render, as the main loop's do, deliver only after a render that followed the last change of focus. |
| `CallbackQueue.SwitchRoleDeliversBeforeRender` | source/unity_jni.c:1148-1167 | The failing run: focus is gained and in the next frame the game switches role; the answer is delivered before any render completed. |
| `CallbackQueue.DeliveredInOrderExactly` | source/combo_bridge.c:287-300 | Deliveries follow arrival from a step on exactly when the step takes no event while another drain is about to call Unity with one; otherwise the later event can reach Unity first. |
| `CallbackQueue.OneThreadDeliversInOrder` | source/combo_bridge.c:281-300 | With all calls on one thread, nested in handlers as they may be, deliveries follow arrival. |
| `CallbackQueue.OneTerminalResponse` | source/combo_bridge.c:129-279 | At most one terminal response of an index is outstanding, in the queue or in the hands of any drain, and while it is, the index cannot be observed again. |
| `CallbackHistory.PendingExactly` | source/combo_bridge.c:129-279 | Over a run: an index is pending, under the name it was observed with, exactly from its being observed until the delivery of its terminal response returned or the bridge shut down; while it is not and a slot is free, every call of legal length can be observed under it. |
| `CallbackHistory.DeliveredAsAccepted` | source/combo_bridge.c:185-300 | Over a run with any drains: Unity is handed the payload and route accepted at that arrival, arrivals count the accepted requests, and until the shutdown the queue is what was accepted less what was taken. |
| `CallbackHistory.TakesExactly` | source/combo_bridge.c:249-300 | Over a run: a drain takes the oldest event accepted and not yet taken, exactly if there was no shutdown, the focus was last set, combo_bridge_after_render was called since, something is queued, and the drain took fewer than eight. |
| `CallbackQueue.NamesMove` | source/combo_bridge.c:129-279 | One step: an index gets a name by being observed, loses it by the return of its terminal delivery or a shutdown, and otherwise keeps what it had. |
| `CallbackQueue.CompleteReleases` | source/combo_bridge.c:271-279 | The return of a terminal delivery frees the slot of its index, which can then be observed again, and leaves every other slot alone; of any other delivery it changes no slot. |
| `CallbackQueue.ObservedExactly` | source/combo_bridge.c:129-183 | A call is observed exactly while accepting, if its name fits, its index is neither negative nor pending, and a slot is free. |
| `CallbackQueue.EnqueuedExactly` | source/combo_bridge.c:185-247 | A callback is accepted exactly while accepting, if it fits, has no NUL, and, for a response, its index is pending, under login_init where the route says so, with no terminal response under way. |
| `CallbackQueue.ActionKeeps` | source/combo_bridge.c:129-300 | Every action keeps the invariant, combo_bridge_after_render from inside handlers, frames and other threads included. |
| `CallbackQueue.ComboBridge.ObserveCall` | source/combo_bridge.c:129-183 | Takes a free slot for a new index, under this name; refuses a duplicate, a full table, a bad name; accepts one-way calls without a slot; every other index keeps its call. |
| `CallbackQueue.ComboBridge.EnqueuePayload` | source/combo_bridge.c:185-247 | Queues exactly what passes the checks, with its own payload, at the tail of the ring. |
| `CallbackQueue.ComboBridge.ChangeFocus` | source/combo_bridge.c:249-254 | A change of focus closes delivery until the next call of combo_bridge_after_render. |
| `CallbackQueue.ComboBridge.BeginDrain` | source/combo_bridge.c:281-286 | A call opens delivery and a drain when focused, at any time. |
| `CallbackQueue.ComboBridge.PopEvent` | source/combo_bridge.c:256-269 | Takes the oldest event exactly when the bridge accepts, is focused and ready, something is queued, and the drain has taken fewer than eight. |
| `CallbackQueue.ComboBridge.SendMessage` | source/combo_bridge.c:287-292 | Unity is called with the event the drain took, outside the lock. |
| `CallbackQueue.ComboBridge.CompleteTerminal` | source/combo_bridge.c:271-279 | A returned terminal delivery leaves no active slot with its index, so that the index can be observed again, and leaves the other slots alone. |
| `Looper.CookiesNeverGoAstray` | source/android_native_unity.c:411-451 | In every run a thread cookie names a living looper only if that thread owns it. |
| `Looper.EndedStaysEnded` | source/android_native_unity.c:407-439 | A looper instance that ended never lives again under its generation. |
| `Looper.CallbackRemovesItsOwn` | source/android_native_unity.c:803-823 | A callback that returns zero removes the registration its batch copied, and only while that very registration is in place. |
| `LooperPolls.CopiesExactly` | source/android_native_unity.c:706-719 | What a poll copies are exactly the registrations in use, in slot order. |
| `LooperPolls.ReadyExactly` | source/android_native_unity.c:784-801 | The batch of callbacks is exactly the copies reported ready whose registration is still in place and has a callback, in slot order; the responses are those without one. |
| `LooperPolls.QueueExactly` | source/android_native_unity.c:375-383 | Queueing appends one response a copy, in order, up to 32, and changes nothing else. |
| `LooperPolls.ReadyOutcome` | source/android_native_unity.c:776-851 | How a poll goes on after poll(), exactly: ready callbacks come before identifiers, identifiers before a wake, and only without any of them is the clock read; an ended instance is an error. |
| `LooperPolls.OnlyReadyIsDispatched` | source/android_native_unity.c:658-856 | Over every run: an identifier returned is that of a registration without a callback whose descriptor poll() reported ready for that looper instance, and every callback run is that of a registration so reported. |
| `LooperPolls.IdentsInOrder` | source/android_native_unity.c:375-395 | Over every run: the polls of a living instance return the identifiers queued for it, each once, in the order queued; the rest still waits. |
| `LooperPolls.EndsExactly` | source/android_native_unity.c:407-439 | An instance lives until its thread exits or its last reference is released, and exactly until then; only acquiring and releasing move its references. |
| `Looper.AddsExactly` | source/android_native_unity.c:564-600 | addFd is refused exactly for arguments the looper does not take or when all slots hold other descriptors. |
| `Looper.LaterWakesStayPending` | source/android_native_unity.c:557-562 | Over a run: a wake stays pending, callbacks that poll again included, until a poll ends whose snapshot is not older than the wake, or the instance ends. |
| `Looper.WakesDuringCallbacksStay` | source/android_native_unity.c:830-842 | A wake during the callbacks of a batch is pending when the poll returns. |
| `Looper.NoTimeoutOverAWake` | source/android_native_unity.c:701-730 | No poll times out under the lock while a wake is pending, and none goes on to read the clock without the lock while one is. |
| `Looper.LateWakeIsLeft` | source/android_native_unity.c:844-851 | A wake that comes before the clock is read, after the lock was released, does not stop the timeout; it stays pending. |
| `Looper.StepKeeps` | source/android_native_unity.c:485-856 | Every section keeps the invariant, callbacks polling again included. |
| `Looper.LooperTable.AddRegistration` | source/android_native_unity.c:564-600 | Registers the descriptor anew, in its own slot or the first free one, with a new generation, or fails; every other registration stays. |
| `Looper.LooperTable.RemoveRegistration` | source/android_native_unity.c:602-617 | Leaves no registration of the descriptor, and every other as it was. |
| `Looper.LooperTable.WakeUp` | source/android_native_unity.c:557-562 | Leaves a wake pending. |
| `Looper.LooperTable.PrepareThread` | source/android_native_unity.c:485-536 | The looper the thread owns, or else the first free slot for it; null exactly when there is no thread key, no free slot, or the key cannot be set. |
| `Looper.LooperTable.ExitThread` | source/android_native_unity.c:433-451 | Gives up the thread reference through a cookie that is still good, and does nothing through a stale one. |
| `Looper.LooperTable.ReleaseReference` | source/android_native_unity.c:549-555 | The last reference retires the slot. |
| `Looper.LooperTable.FinishCallback` | source/android_native_unity.c:803-823 | Clears the slot of a callback that returned zero only if the copied registration is still in it. |
| `Looper.LooperTable.BeginPoll` | source/android_native_unity.c:658-684 | A poll begins by handing out a waiting response, if there is one. |
| `Looper.LooperTable.TurnPoll` | source/android_native_unity.c:686-745 | The top of the loop: a dead instance, a waiting response, the copies, or without registrations a wake, the timeout, an error or another turn. |
| `Looper.LooperTable.GatherReady` | source/android_native_unity.c:784-801 | The loop over the reported copies gathers the batch and queues the responses. |
| `Looper.LooperTable.FinishWait` | source/android_native_unity.c:776-842 | The section after poll() refines the step of the model, whichever way it ends. |
| `Looper.LooperTable.FinishBatch` | source/android_native_unity.c:824-842 | After the callbacks: a response, or CALLBACK, with the wakes from before the batch consumed. |

## Left out

- Hardware, kernel and libnx calls, memory mapping, code patching, graphics, input,
  sound and the import tables: foreign calls without a protocol of their own.
- Network, TLS, RSA, HMAC, the captcha page and its LAN server: their outcomes are
  inputs of `LoginFlow`; `base64_encode` is not modelled.
- Integer and boolean JSON getters, `normalize_asset_path`, inode numbers,
  diagnostics counters, messages shown to the user, and error numbers where only
  failure matters.
- I/O and memory failures while a pack is built: the build is modelled with a disk
  that works. Pack sizes are those an `off_t` can hold. A read from the storage that
  succeeds returns what is there, up to the bytes asked for.
- Races on native descriptors behind the pack table, and the alias path of
  `fakefd_dup2`: they depend on the system's descriptor table.
- 64-bit generation and sequence counters, and the 32-bit reference counts of open
  files, loopers and pipes, are unbounded; JNI counts, alias counts, table sizes and
  file sizes have their limits.
- Fields that only the user interface reads (`g_retry_pending`,
  `g_geetest_retry_pending`, `g_verifier_retry_pending`).
- Several tracked files and the 128 slots of their table: one file is modelled, its
  slot being there or not. The storage is taken to fill a file it grows with zeros.
- Unity's stateful handles: JNI handles outside the counted heap are treated as
  immortal. Arrays that contain themselves keep their count, as in the source.
- The wake-up calls on condition variables: a waiting section is one that cannot run
  yet, so lost wake-ups are not modelled.
- JniRefs.JniEnv.RegLocal: in the class each call is one step and what other threads
  own is one multiset; `JniThreads` interleaves the steps of which calls consist. That
  `NewObjectArray` is a run of them is not shown.
- PackHandles.PackTable.BeginDup2Fd: taking the dup lock, pinning the source and
  opening a native descriptor are one step, since only the pin touches the table.
- Looper.LooperTable.FinishWait: interrupted and failed waits, reading the clock and
  acquiring a reference are steps of the model without a method of their own. Event
  masks and data pointers of registrations are left out.
- `android_native_looper_forget_fd` and `android_native_looper_pump_callbacks`:
  sequences of modelled steps.
