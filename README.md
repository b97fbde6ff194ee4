# obnam core in Dafny

This project models four pieces of obnam, a backup program written in
Python 2.

- **The delta engine, `Obsync`** (`obsync.dfy`).
  - It computes a file's rsync signature: a weak and a strong checksum for every block of a fixed size.
  - `RsyncLookupTable` indexes a signature by checksum pair.
  - `file_delta` slides a window over a new file. It emits `OldFileSubString` copy instructions for blocks the signature knows and `FileChunk` literals byte by byte otherwise.
  - Proved:
    - the signature's shape;
    - the lookup table's semantics;
    - that the steps of the delta tile the new file;
    - the byte count of literals plus matched blocks;
    - that replaying the delta against the reference file rebuilds the new file, assuming the strong checksum does not collide;
    - the output for an empty file, an empty signature and an identical file.
- **The `Component` tree, `Components`** (`component.dfy`).
  - A component is either string valued or composite, depending on its kind.
  - Its accessors report an error when used on the wrong kind.
  - `find`, `first` and their string variants select children by kind.
  - `extract` removes the matches in place. It is proved to return exactly the matching children in order and to leave exactly the others.
- **The pure helpers of the show plugin, `ShowPlugin`** (`show_plugin.dfy`):
  - `_convert_time` parses an age setting such as `30m` or `2w`;
  - `remove_trailing_slashes`;
  - the permission string `fields` builds from `st_mode`;
  - the verdict of `nagios-last-backup-age`;
  - which two generations `diff` compares;
  - how `show_diff` sorts names into added, removed and common.
- **The `Store`** (`store.dfy`), as its unit tests specify it:
  - the host block is fetched, created and replaced;
  - objects are queued and committed;
  - object and content maps are loaded and updated;
  - pathnames are parsed;
  - directories and files are looked up in a generation.
  - The store's implementation is not part of this model. Its bodies here are the smallest ones that meet the behaviour the tests assert, and each test becomes a method or lemma with that assertion as its `ensures`.

`outcomes.dfy` holds `Option`, `Result` and `Outcome`. `numerals.dfy` holds
decimal numerals: what `int()` reads and what `str()` writes for naturals.

## Model

| member | source | states |
|---|---|---|
| `Obsync.BlockSignature` | obnamlib/obsync.py:80-93 | Defines a block's signature: the weak and the strong checksum of exactly the block's bytes, in that order |
| `Obsync.Signature` | obnamlib/obsync.py:95-109 | Defines the file signature: the block signatures of successive `block_size` reads from the start until a read is empty (its shape is proved by `SignatureShape`) |
| `Obsync.FileSignature` | obnamlib/obsync.py:95-109 | The read loop returns exactly `Signature`: one checksum pair per successive `block_size` read, stopping at the first empty read |
| `Obsync.MakeSignature` | obnamlib/obsync.py:111-116 | The RsyncSig carries the object id, the block size and the file's signature |
| `Obsync.SignatureShape` | obnamlib/obsync.py:95-109 | For block size >= 1 the signature has ceil(\|f\| / bs) entries, and entry i is `block_signature` of block i (a short last block included) |
| `Obsync.SignatureFromLength` | obnamlib/obsync.py:103-107 | The signature from offset p has ceil((\|f\| - p) / bs) entries |
| `Obsync.SignatureFromAt` | obnamlib/obsync.py:103-107 | Entry i from offset p checksums bytes p+i*bs up to min(p+i*bs+bs, \|f\|) |
| `Obsync.SignatureOfZeroBlockSize` | obnamlib/obsync.py:103-106 | With block size 0 the first read is empty, so the signature is empty |
| `Obsync.Catalogue` | obnamlib/obsync.py:28-34 | Defines the two-level dictionary weak checksum → strong checksum → block number, filled in enumeration order so a later block overwrites an earlier one |
| `Obsync.Probe` | obnamlib/obsync.py:37-42 | Defines the lookup: the weak key, then the strong key in its sub-dictionary, None when either is missing |
| `Obsync.CatalogueLookup` | obnamlib/obsync.py:29-34 | The table answers a checksum pair iff some block has that pair, and the answer is the LAST such block number (later blocks overwrite) |
| `Obsync.RsyncLookupTable.constructor` | obnamlib/obsync.py:25-34 | The loop over the checksums builds exactly the two-level dictionary `Catalogue(checksums)` and keeps both checksum functions |
| `Obsync.RsyncLookupTable.Get` | obnamlib/obsync.py:36-42 | Some iff the window's weak checksum is a key and its strong checksum is a key of that sub-dictionary; the value is the stored block number |
| `Obsync.Steps` | obnamlib/obsync.py:132-146 | Defines the loop's trace from a position: a miss consumes the window's first byte, a hit the whole window; the trace ends when the read is empty |
| `Obsync.Instructions` | obnamlib/obsync.py:134-146 | Defines what each step appends: `FileChunk(first byte)` for a miss, `OldFileSubString(n * block_size, block_size)` for a hit on block n |
| `Obsync.Delta` | obnamlib/obsync.py:118-148 | Defines `file_delta`'s output: the instructions of the trace from offset 0 against the lookup table of the signature |
| `Obsync.SlideWindow` | obnamlib/obsync.py:136-141 | Dropping the first byte and appending the next read byte gives the window one byte further on |
| `Obsync.MissStep` | obnamlib/obsync.py:134-141 | On a lookup miss the delta is a `FileChunk` of the window's first byte followed by the delta from one byte further |
| `Obsync.HitStep` | obnamlib/obsync.py:142-146 | On a hit for block n the delta is `OldFileSubString(n * block_size, block_size)` followed by the delta after the window |
| `Obsync.MissKeepsDelta` | obnamlib/obsync.py:135-141 | The miss branch keeps the loop invariant output + delta of the rest == whole delta |
| `Obsync.HitKeepsDelta` | obnamlib/obsync.py:142-146 | The hit branch keeps the same loop invariant |
| `Obsync.ReadAt` | obnamlib/obsync.py:132 | `new_file.read(n)` at a cursor returns the next min(n, remaining) bytes and advances by that many |
| `Obsync.SlideByOne` | obnamlib/obsync.py:138-141 | Dropping one byte and reading one more yields the window at start+1 and the cursor after it |
| `Obsync.FileDelta` | obnamlib/obsync.py:118-148 | The loop's output is exactly `Delta(h, rsyncsig, newFile)` |
| `Obsync.StepsTile` | obnamlib/obsync.py:132-146 | The literal bytes and matched windows of the delta, in order, are exactly the new file from the start position |
| `Obsync.TextStep` | obnamlib/obsync.py:133-146 | One step of the loop consumes a non-empty prefix of what is left and advances past it |
| `Obsync.MissText` | obnamlib/obsync.py:135-141 | A miss consumes exactly the current byte |
| `Obsync.HitText` | obnamlib/obsync.py:142-146 | A hit consumes exactly the current window |
| `Obsync.CountSteps` | obnamlib/obsync.py:133-146 | For any trace: literal count plus matched bytes equals the bytes covered |
| `Obsync.Coverage` | obnamlib/obsync.py:118-148 | Every byte of the new file is either one `FileChunk` or inside one matched window |
| `Obsync.Replay` | obnamlib/obsync.py:119-123 | Defines what the output list means: a `FileChunk` is its byte, an `OldFileSubString` the reference bytes at that offset and length, cut at the reference's end |
| `Obsync.HitIsBlock` | obnamlib/obsync.py:29-34 | Without strong-checksum collisions, a window the table matches to block n is byte-for-byte block n of the reference file |
| `Obsync.ReplayText` | obnamlib/obsync.py:136-145 | Replaying the instructions of a trace whose hits are real blocks yields the trace's bytes |
| `Obsync.StepsHitBlocks` | obnamlib/obsync.py:142-146 | Without collisions every hit of the delta loop is a real reference block |
| `Obsync.ReplaySteps` | obnamlib/obsync.py:132-146 | Replaying the delta from any start rebuilds the rest of the new file |
| `Obsync.Reconstruction` | obnamlib/obsync.py:118-148 | Replay(reference, file_delta(signature of reference, f)) == f for every f, when bs >= 1 and there are no collisions |
| `Obsync.DeltaOfEmptyFile` | obnamlib/obsync.py:132-133 | An empty new file gives an empty delta |
| `Obsync.DeltaWithZeroBlockSize` | obnamlib/obsync.py:126-133 | Block size 0 reads nothing, so the delta is empty whatever the file |
| `Obsync.StepsWithoutCatalogue` | obnamlib/obsync.py:134-141 | With an empty table every step is a miss, so the instructions are the bytes as literals in order |
| `Obsync.DeltaAgainstEmptySignature` | obnamlib/obsync.py:126-141 | Against the signature of an empty file, the delta is every byte of the new file as a `FileChunk`, in order |
| `Obsync.CopiesAt` | obnamlib/obsync.py:143-145 | The run of copies from block j has length n and its i-th element copies block j+i |
| `Obsync.CopiesLength` | obnamlib/obsync.py:143-145 | The run of copies has one instruction per block |
| `Obsync.OwnBlockHits` | obnamlib/obsync.py:29-34 | With distinct checksum pairs, the window at block j of the same file is found as block j |
| `Obsync.OwnBlockStep` | obnamlib/obsync.py:142-146 | Delta of the same file from block j is a copy of block j followed by the delta from block j+1 |
| `Obsync.StepsOverOwnBlocks` | obnamlib/obsync.py:132-146 | Delta of the same file from block j copies blocks j..k-1 in order |
| `Obsync.DeltaOfIdenticalFile` | obnamlib/obsync.py:118-148 | A file diffed against its own signature, with distinct checksum pairs, gives one `OldFileSubString(i * bs, bs)` per block i and nothing else |
| `Obsync.RepeatedBlockCopiesLastBlock` | obnamlib/obsync.py:29-34 | When two blocks share a checksum pair the later one wins: [7, 7] with block size 1 gives two copies of offset 1 |
| `Components.FilterMembers` | obnamlib/component.py:82-84 | A component is in the filtered list iff it is a child of the given kind |
| `Components.FilterConcat` | obnamlib/component.py:82-84 | Filtering distributes over concatenation |
| `Components.FilterHead` | obnamlib/component.py:90-96 | The filtered list is non-empty iff some child has the kind, and its head is the first such child |
| `Components.RejectMembers` | obnamlib/component.py:106-111 | A component survives extraction iff it is a child of another kind |
| `Components.ExtractPartition` | obnamlib/component.py:106-111 | The extracted and the remaining children together are the original children, as a multiset |
| `Components.RejectLeavesNoMatch` | obnamlib/component.py:106-111 | After extraction no child of the kind remains |
| `Components.RemoveNoMatches` | obnamlib/component.py:109-110 | Removing none of the matches leaves the list unchanged |
| `Components.RemoveNextMatch` | obnamlib/component.py:109-110 | After removing the first i matches, `list.remove` of match i removes exactly that one, leaving the first i+1 removed |
| `Components.RemoveAllMatches` | obnamlib/component.py:109-110 | Removing every match, first occurrence each time, leaves exactly the children of the other kinds |
| `Components.Strings` | obnamlib/component.py:86-88 | The string values of the components, in order; an error iff one of them is not string valued |
| `Components.Component.Make` | obnamlib/component.py:37-44 | A component holds its kind registry, kind, string and children as given |
| `Components.Component.New` | obnamlib/component.py:37-44 | Fails iff a string is given to a non-string kind or children to a non-composite kind; otherwise the string defaults to "" and the children to [] |
| `Components.Component.GetString` | obnamlib/component.py:46-54 | The string iff the kind is plain or a reference, else the "non-plain" error |
| `Components.Component.SetString` | obnamlib/component.py:56-61 | Sets the string iff the kind is string valued and the value is a str; the error says which check failed; children are untouched |
| `Components.Component.GetChildren` | obnamlib/component.py:66-73 | The children iff the kind is composite, else the "non-composite" error |
| `Components.Component.SetChildren` | obnamlib/component.py:75-77 | Replaces the children iff the kind is composite; the string is untouched |
| `Components.Component.Find` | obnamlib/component.py:82-84 | Exactly the children of the kind, in their order; error on a non-composite kind |
| `Components.Component.FindStrings` | obnamlib/component.py:86-88 | The string values of exactly the matching children, in order |
| `Components.Component.First` | obnamlib/component.py:90-96 | Some iff a child has the kind, and then it is the first such child |
| `Components.Component.FirstString` | obnamlib/component.py:98-104 | On a composite component: an error iff the first child of the kind exists and is not string valued (then the "non-plain" error), else the string of the first matching child, None iff there is none; on a non-composite component the "non-composite" error |
| `Components.Component.Extract` | obnamlib/component.py:106-111 | Returns the matches in order, leaves exactly the other children in order and none of the kind; the string is untouched |
| `Numerals.DecimalString` | obnamlib/plugins/show_plugin.py:341-343 | A non-empty string of decimal digits |
| `Numerals.DecimalOfDecimalString` | obnamlib/plugins/show_plugin.py:343 | `int()` of the decimal rendering of n is n |
| `ShowPlugin.ConvertTime` | obnamlib/plugins/show_plugin.py:340-359 | An accepted age starts with a digit |
| `ShowPlugin.ConvertTimeWithUnit` | obnamlib/plugins/show_plugin.py:341-359 | Any non-empty digit string (leading zeros allowed) followed by s, m, h, d or w converts to `int()` of the digits times 1, 60, 3600, 86400 or 604800 seconds |
| `ShowPlugin.ConvertTimeOfDecimal` | obnamlib/plugins/show_plugin.py:341-359 | In particular the decimal form of n with a unit letter is n of that unit |
| `ShowPlugin.ConvertTimeDefaultUnit` | obnamlib/plugins/show_plugin.py:343-359 | A bare digit string is `int()` of its digits in the default unit; a default outside s, m, h, d, w is a ValueError |
| `ShowPlugin.ConvertTimeIgnoresNewline` | obnamlib/plugins/show_plugin.py:341 | `$` also matches before one final newline, so one trailing "\n" does not change the result |
| `ShowPlugin.ConvertTimeAccepts` | obnamlib/plugins/show_plugin.py:341-342 | The conversion succeeds iff the string is digits, an optional unit letter and an optional final newline |
| `ShowPlugin.ConvertTimeExamples` | obnamlib/plugins/show_plugin.py:340-359 | "12" is 43200, "30m" 1800, "2w" 1209600 and "007s\n" 7 seconds |
| `ShowPlugin.ConvertTimeRejects` | obnamlib/plugins/show_plugin.py:341-342 | "", "h", "5x", "1h2" and "3d\n\n" raise ValueError |
| `ShowPlugin.Stripped` | obnamlib/plugins/show_plugin.py:164-167 | Defines the name with trailing slashes dropped one at a time while it ends in "/" and is not "/" |
| `ShowPlugin.RemoveTrailingSlashes` | obnamlib/plugins/show_plugin.py:164-167 | The loop returns `Stripped(filename)` |
| `ShowPlugin.StrippedShape` | obnamlib/plugins/show_plugin.py:164-167 | The result is a prefix of the input, non-empty if the input is, only slashes were dropped, and it is "/" or does not end in "/" |
| `ShowPlugin.StrippedUnique` | obnamlib/plugins/show_plugin.py:164-167 | Any prefix with those properties is the result, so they characterise it |
| `ShowPlugin.StrippedIdempotent` | obnamlib/plugins/show_plugin.py:164-167 | Stripping twice is stripping once |
| `ShowPlugin.StrippedExamples` | obnamlib/plugins/show_plugin.py:164-167 | "a//" is "a", "///" and "/" are "/", "/home/liw/" is "/home/liw" |
| `ShowPlugin.TypeCharAsWritten` | obnamlib/plugins/show_plugin.py:293-311 | Defines the type character the table paints: the last of S_IFREG, S_IFDIR, S_IFLNK, S_IFIFO all of whose bits are set in the mode, else '?' |
| `ShowPlugin.TypeChar` | obnamlib/plugins/show_plugin.py:293-297 | Defines the corrected type character: the S_IFMT field compared for equality with each listed type, else '?' |
| `ShowPlugin.TypeCharAfterTypeRows` | obnamlib/plugins/show_plugin.py:293-297 | Painting the four file-type rows in order gives the as-written type character |
| `ShowPlugin.TypeRows` | obnamlib/plugins/show_plugin.py:294-297 | The first four rows of the table are S_IFREG, S_IFDIR, S_IFLNK and S_IFIFO at offset 0 |
| `ShowPlugin.PermissionRow` | obnamlib/plugins/show_plugin.py:298-306 | Row 4+k paints bit 0o400 >> k at offset k+1 with r, w or x |
| `ShowPlugin.Painted` | obnamlib/plugins/show_plugin.py:292-311 | The partly painted string always has 10 characters |
| `ShowPlugin.PaintedStep` | obnamlib/plugins/show_plugin.py:309-311 | One more row writes its character at its offset iff all its bits are set in the mode |
| `ShowPlugin.PaintedTypeRows` | obnamlib/plugins/show_plugin.py:292-297 | After the type rows, position 0 holds the type character and positions 1-9 are '-' |
| `ShowPlugin.PaintedBitRows` | obnamlib/plugins/show_plugin.py:298-311 | After the permission rows, position j shows r/w/x iff its bit is set, else '-'; position 0 is unchanged |
| `ShowPlugin.PaintPermissions` | obnamlib/plugins/show_plugin.py:292-312 | The table loop yields a 10-character string whose position 0 is the as-written type character and whose positions 1-9 are the permission bits |
| `ShowPlugin.PermissionStringAsWritten` | obnamlib/plugins/show_plugin.py:292-312 | `st_mode or 0` rendered as written: position 0 is `TypeCharAsWritten`, positions 1-9 the permission bits |
| `ShowPlugin.PermissionString` | obnamlib/plugins/show_plugin.py:292-312 | Corrected rendering: position 0 is decided by the whole S_IFMT field, positions 1-9 as written |
| `ShowPlugin.TypeCharExact` | obnamlib/plugins/show_plugin.py:293-297 | The corrected type character is '-', 'd', 'l' or 'p' iff the S_IFMT field is exactly that type |
| `ShowPlugin.TypeCharAgreesOnListedTypes` | obnamlib/plugins/show_plugin.py:293-297 | For no type, regular files, directories, links, FIFOs and character devices, the as-written and corrected characters agree |
| `ShowPlugin.SocketShownAsDirectory` | obnamlib/plugins/show_plugin.py:308-311 | As written, a socket (0o140755) and a block device (0o060644) are shown as 'd' |
| `ShowPlugin.Verdict` | obnamlib/plugins/show_plugin.py:119-136 | Defines the threshold chain: no backup, or older than the critical age, is CRITICAL; else older than the warning age is WARNING; else OK |
| `ShowPlugin.VerdictMonotone` | obnamlib/plugins/show_plugin.py:119-136 | An older last backup never gets a better exit code; no backup at all is exit code 2 |
| `ShowPlugin.MostRecentStart` | obnamlib/plugins/show_plugin.py:109-116 | None iff there are no generations, else the largest start time, which is one of them |
| `ShowPlugin.NagiosLastBackupAge` | obnamlib/plugins/show_plugin.py:109-136 | ValueError iff either setting fails to convert; CRITICAL iff every generation started longer ago than the critical age; OK iff some started within the critical age and some within the warning age |
| `ShowPlugin.NagiosWithDefaultSettings` | obnamlib/plugins/show_plugin.py:48-65 | Both settings default to DEFAULT_NAGIOS_WARN_AGE, so WARNING is never reported with the defaults |
| `ShowPlugin.IndexOf` | obnamlib/plugins/show_plugin.py:277 | `list.index`: Some iff present, and then the first position holding the value |
| `ShowPlugin.DiffGenerations` | obnamlib/plugins/show_plugin.py:265-284 | Two arguments are taken as given; a count other than 1 or 2 is an error; one argument is an error iff it is not a generation or it is the first; otherwise it is paired with its predecessor |
| `ShowPlugin.DiffWithPredecessor` | obnamlib/plugins/show_plugin.py:272-281 | With distinct generation ids, generation i > 0 is compared with generation i-1 |
| `ShowPlugin.RemoveName` | obnamlib/plugins/show_plugin.py:250-252 | `list.remove` of a present name takes exactly one occurrence out of the list; at its one call the name is always present, because `show_diff` tests `basename in set1` first. For an absent name, where `list.remove` would raise ValueError, this function returns the list unchanged; that case is the model's own choice and is never reached |
| `ShowPlugin.CommonNameStep` | obnamlib/plugins/show_plugin.py:250-253 | A name still in the old list moves one occurrence from "removed" to "common" |
| `ShowPlugin.AddedNameStep` | obnamlib/plugins/show_plugin.py:254-256 | A name not left in the old list is one more "added" |
| `ShowPlugin.ClassifyNames` | obnamlib/plugins/show_plugin.py:243-260 | Marked '+' are the new names minus the old, '-' the old minus the new, the rest the names in both (as multisets) |
| `Store.BlockNameInjective` | obnam/storeTests.py:131-138 | Distinct block numbers give distinct block ids |
| `Store.Backend.Empty` | obnam/storeTests.py:44-45 | A fresh backend holds no blocks and no host blocks |
| `Store.Backend.GenerateBlockId` | obnam/storeTests.py:131-135 | Returns an id not yet used and changes nothing else |
| `Store.Backend.UploadBlock` | obnam/storeTests.py:131-138 | Stores the block under its id and changes nothing else |
| `Store.Backend.UploadHostBlock` | obnam/storeTests.py:82-84 | Stores the host record under the host id and changes nothing else |
| `Store.LoadMap` | obnam/storeTests.py:161-173 | Defines what loading brings into memory: the entries of the listed map blocks (a missing block adds none) |
| `Store.Retrieve` | obnam/storeTests.py:90-106 | Defines retrieval: the map gives the object's block, and the block holds the object; None when either step fails |
| `Store.FindObject` | obnam/storeTests.py:94-106 | Some iff the block holds an object with the id, and it is that object |
| `Store.ObjectItems` | obnam/storeTests.py:94-98 | A block of queued objects holds them one by one, in order |
| `Store.IdsToMaps` | obnam/storeTests.py:94-98 | Every queued object's id maps to the block it was written to |
| `Store.EntryItems` | obnam/storeTests.py:128-138 | Encoding a map as block items decodes back to the same map |
| `Store.EntriesAppend` | obnam/storeTests.py:175-191 | Appending one entry to a map block updates that key |
| `Store.LoadMapUnaffected` | obnam/storeTests.py:175-191 | Writing a block that is not a map block leaves the loaded map unchanged |
| `Store.LoadMapAppend` | obnam/storeTests.py:175-191 | Adding a map block adds its entries, later blocks winning |
| `Store.ObjectItemsFind` | obnam/storeTests.py:94-106 | A queued object can be found in the block it was written to |
| `Store.HostBlock.constructor` | obnam/storeTests.py:82-83 | A host block holds the generation, map and content-map block ids it is given |
| `Store.Store.constructor` | obnam/storeTests.py:44-45 | A new store has no host block, empty maps and an empty queue |
| `Store.Store.FetchHostBlock` | obnam/storeTests.py:47-75 | After fetching there is a host block for this host: the stored one if it exists, else a new one with no generations and no map blocks |
| `Store.Store.QueueObject` | obnam/storeTests.py:94-98 | Appends the object to the queue and changes nothing else |
| `Store.Store.QueueObjects` | obnam/storeTests.py:108-116 | Queues the objects one by one, in the order given |
| `Store.Store.AddObjectEntry` | obnam/storeTests.py:179-182 | Adds the entry to the object map and records it as new |
| `Store.Store.AddContentEntry` | obnam/storeTests.py:188-191 | Adds the entry to the content map and records it as new |
| `Store.Store.LoadMaps` | obnam/storeTests.py:161-169 | Adds the entries of the host's map blocks to the object map |
| `Store.Store.LoadContentMaps` | obnam/storeTests.py:164-173 | Adds the entries of the host's content-map blocks to the content map |
| `Store.Store.WriteMapBlock` | obnam/storeTests.py:175-191 | Uploads a new block whose entries are exactly the given map and keeps all older blocks |
| `Store.Store.UpdateMaps` | obnam/storeTests.py:175-182 | Afterwards the stored map blocks load to the old stored map plus the new entries; nothing is pending and the in-memory map is unchanged |
| `Store.Store.UpdateContentMaps` | obnam/storeTests.py:184-191 | The same for the content map |
| `Store.Store.FlushQueue` | obnam/storeTests.py:94-98 | Queued objects go into one new block, and each id maps to that block |
| `Store.FlushKeepsMaps` | obnam/storeTests.py:94-98 | Writing the queued objects into a new block keeps every older block and leaves what the map and content-map blocks load unchanged |
| `Store.Store.CommitHostBlock` | obnam/storeTests.py:52-67 | Uploads and keeps in memory a fresh host block with the generations appended and the store's map-block lists; only this host's record changes and every older block is kept; queued objects go into one new block and the object map gains their ids; the stored map blocks load to the old ones plus every pending entry, the content-map blocks likewise; every queued object can then be retrieved through them |
| `Store.Store.GetObject` | obnam/storeTests.py:90-92 | An error naming the id iff the maps do not lead to the object; otherwise the object with that id |
| `Store.CreatesNewHostBlock` | obnam/storeTests.py:69-75 | Before fetching there is no host block; after it there is a new one for the host id with no generations and no map blocks |
| `Store.LoadsExistingHostBlock` | obnam/storeTests.py:77-88 | A stored host block with generations ["pink", "pretty"] is loaded with them |
| `Store.ReplacesHostBlockInMemory` | obnam/storeTests.py:63-67 | Committing replaces the in-memory host block with a different object |
| `Store.CommitsQueuedObject` | obnam/storeTests.py:90-98 | Getting an unknown object fails; a queued, committed object is reachable from the stored map blocks |
| `Store.AddsObjectToStore` | obnam/storeTests.py:94-106 | A second store that fetches the host block and loads the maps gets the committed object |
| `Store.SeedMaps` | obnam/storeTests.py:121-144 | The fixture stores one map block {"pink": "pretty"} and one content-map block {"black": "beautiful"} for the host |
| `Store.MapCountsOnLoad` | obnam/storeTests.py:161-173 | Maps hold 0 entries before loading and 1 after, for both maps |
| `Store.MapCountsOnUpdate` | obnam/storeTests.py:175-191 | Updating with nothing new leaves 0 entries; adding one entry and updating leaves 1, for both maps |
| `Store.SlashIndex` | obnam/storeTests.py:209-215 | The position of the first "/", or the length; no "/" before it |
| `Store.Components` | obnam/storeTests.py:209-219 | The split parts are non-empty and contain no "/" |
| `Store.ParsePathname` | obnam/storeTests.py:200-219 | Parts are non-empty; the first part is "/" iff the pathname is absolute; no other part contains "/" |
| `Store.ComponentsOfJoin` | obnam/storeTests.py:209-211 | Splitting the "/"-join of proper parts gives the parts back |
| `Store.ParsePathnameOfPathname` | obnam/storeTests.py:200-215 | Parsing the pathname built from proper parts, relative or rooted at "/", gives the parts back |
| `Store.ParsePathnameOfAbsolute` | obnam/storeTests.py:213-215 | "/" plus a relative pathname parses to "/" followed by its parts |
| `Store.ParsePathnameExamples` | obnam/storeTests.py:200-215 | "/" is ["/"], "." is ["."], "foo" is ["foo"], "foo/bar" is ["foo", "bar"], "/foo/bar" is ["/", "foo", "bar"] |
| `Store.ComponentsOfJoinSlash` | obnam/storeTests.py:217-219 | A trailing "/" after a join is ignored when splitting |
| `Store.ParsePathnameTrailingSlash` | obnam/storeTests.py:217-219 | A trailing "/" on any pathname other than "/" is ignored |
| `Store.AbsoluteTrailingSlash` | obnam/storeTests.py:217-219 | The same for absolute pathnames |
| `Store.ParsePathnameTrailingSlashExample` | obnam/storeTests.py:217-219 | "foo/bar/" is ["foo", "bar"] |
| `Store.FindDir` | obnam/storeTests.py:257-277 | Some iff a directory of that name is in the list, and then it has that name |
| `Store.Walk` | obnam/storeTests.py:257-269 | A found directory is named by the last part |
| `Store.LookupDir` | obnam/storeTests.py:257-273 | A found directory is named by the pathname's last part |
| `Store.LookupFile` | obnam/storeTests.py:275-277 | A found file is named by the pathname's last part |
| `Store.WalkPrefix` | obnam/storeTests.py:261-269 | If a path resolves, so does every non-empty prefix of it |
| `Store.LookupOfMissingName` | obnam/storeTests.py:271-277 | A name that is neither a root directory nor a file is found as neither |
| `Store.LookupDirOfJoin` | obnam/storeTests.py:257-269 | Looking up a joined relative pathname walks the directory tree part by part |
| `Store.LookupFindsSubdirs` | obnam/storeTests.py:257-269 | The backup root, root/dir1 and root/dir1/dir2 are each found, as the directory of that name |

## Left out

- The checksums are parameters. Adler-32 (`zlib.adler32`) and MD5 (`hashlib`) become the `Hashes` functions, so no property depends on what they compute.
- Reconstruction depends on the `NoCollisions` assumption: a window whose checksum pair matches block n is block n. That is the rsync algorithm's own assumption, and MD5 does not guarantee it.
- Both `str()` calls in `__getitem__` are taken to give the same strings the table stores. These are `str(self.compute_weak(block_data))` (obnamlib/obsync.py:37) and `str(self.compute_strong(block_data))` (obnamlib/obsync.py:40). The table stores `first_string(kind=ADLER32)` and `first_string(kind=MD5)` (obnamlib/obsync.py:30-31). The model therefore applies the same `Hashes` functions to the window as to the stored blocks. `Obsync.HitIsBlock`, `Obsync.StepsHitBlocks`, `Obsync.ReplaySteps`, `Obsync.Reconstruction`, `Obsync.OwnBlockHits`, `Obsync.OwnBlockStep`, `Obsync.StepsOverOwnBlocks` and `Obsync.DeltaOfIdenticalFile` depend on this. The `Adler32` and `Md5` component classes and their string forms are not part of this model.
- Files are byte sequences read in full. Short reads from pipes or sockets, and the file objects themselves, are not modelled.
- `Obsync.DeltaOfIdenticalFile` assumes the blocks' checksum pairs are distinct. When two blocks share a pair, the table keeps the last one, as `Obsync.RepeatedBlockCopiesLastBlock` shows.
- Block size 0 only shows that the signature and the delta are empty. The reconstruction lemmas require a block size of at least 1.
- obnamlib/rsync.py, app.py, progress.py, obnam/oper_backup.py and the other context files are not part of this model.
- `Components.Component.Extract` works on a value copy of the children list. Aliasing of that list with other references is not modelled.
- The component kind registry (`cmp_kinds`) is modelled as three sets of kinds, because its table is not part of this model. Each component carries its own registry value, where the program has one global registry; nothing states that a component and its children share it, so `FindStrings` and `FirstString` read each child's own registry.
- `Components.Component.Find`: `find(kind=None)` called without a kind (matching children whose kind is None) is not modelled; every call passes a kind.
- The show plugin's output is not modelled: `app.output.write`, `sys.exit` (given as the exit code), `strftime` and `format_time`. Opening the repository, `genspec` and its error paths are not modelled either, and `app.time()` becomes a parameter.
- `ShowPlugin.NagiosLastBackupAge`: the current time and the generation start times are integers. If `app.time()` returns a float, the comparisons with the ages can differ at sub-second boundaries; the clock is not part of this model.
- `ShowPlugin.ClassifyNames` states its result as multisets. It does not model the `sorted()` output order.
- `show_diff_for_common_file` is not modelled: neither its changed-or-not decision on metadata nor the recursion of `show_diff` into subdirectories.
- `fields` only has its permission string modelled. The other metadata columns and the `format`/`align` width helpers are not.
- `ShowPlugin.ModeOf` takes `st_mode` modulo 2^16, the bits the permission table tests.
- The Store's implementation is not part of this model. Its methods have minimal bodies whose contracts are the behaviour `obnam/storeTests.py` asserts.
- Store: object encoding and block encoding are not modelled. A block is a sequence of items, and a map block that is missing loads as empty.
- `Store.LoadMap`: when the same object id appears in two map blocks, the LATER block wins (and within a block the later entry). obnam expects at most one entry per id and describes lookups as taking the first match in load order; no test exercises a repeated id, so the two orders differ only where obnam expects no input.
- `Store.ParsePathname`: empty parts are dropped, so "a//b" gives ["a", "b"] and "" gives []. The tests fix only pathnames without empty parts.
- Store: the application backup run that fills the lookup tests' generation is not modelled. The generation is a parameter of the lookup lemmas.

## Findings

| source | as written | input that shows it | evidently intended | confidence | as-written member | corrected member |
|---|---|---|---|---|---|---|
| obnamlib/plugins/show_plugin.py:293-311 | The file-type rows test `(mode & bitmap) == bitmap`, so any mode containing all bits of S_IFDIR (0o040000) paints 'd', and S_IFIFO, S_IFLNK and S_IFREG likewise match modes that merely include their bits | a socket, mode 0o140755, or a block device, mode 0o060644: both are shown with type 'd' | The type character is chosen from the whole S_IFMT field, with '?' for types the table does not list | not executed | `ShowPlugin.PermissionStringAsWritten` with `ShowPlugin.SocketShownAsDirectory` | `ShowPlugin.PermissionString` with `ShowPlugin.TypeCharExact` |
