# NekoQ-Bootstrap, modelled in Dafny

NekoQ-Bootstrap is a DNS and service-registration node. This project models the four parts of it that carry
state over time, and proves what they promise:

* **The write-ahead log and crash recovery.** Entries are cut into 4096-byte pages with an 8-byte header and a
  CRC-32, appended to files that rotate at 1 GiB. A put is three durable steps: append to the log, write the
  key-value store, write the version. A restart rebuilds the counters from the files and replays pages into the
  store.
* **Peer replication.** Each node keeps its own registrations, a list of pending additions and deletions for every
  peer that watches it, copies of its peers' registrations, and a merged view. Peers fetch a full snapshot or
  drain the pending list; a drained response that gets lost is lost.
* **The DNS response cache**, with a lifetime per entry and a sweep.
* **Reverse-DNS names** for IPv4 and IPv6 addresses.

`dafny verify dfyconfig.toml` checks everything.

## Layout

| file | content |
|---|---|
| `Bytes`, `Folds`, `Options`, `Numerals` | bytes and big-endian numbers, left folds, optional values, decimal and hexadecimal numerals |
| `Crc32` | the table-driven CRC-32 of section 8 of RFC 1952, as a fold over 32-bit words |
| `WalPage` | one page: writing, reading, damage |
| `WalNames` | positions, file names, and their orders |
| `WalEntries` | cutting entries into pages and putting them together again |
| `DiskWal` | the log object: writing, rotation, opening, replay |
| `WalRuns`, `WalReplay` | whole runs of a writer with restarts; what a replay covers |
| `Cbor` | the encoding of log entries and versions |
| `SoleStorage` | the key-value service over the log |
| `WalFormat` | pages, entries and positions written out byte by byte, in numbers |
| `WalOpening` | when a log can be opened, and damage that keeps it closed |
| `WalRepair`, `WalCuts` | opening a log whose last entry was cut short; whole runs of writes, cuts and restarts |
| `Recovery` | overlapping puts, crashes and restarts as a machine |
| `RecoveryExact` | key by key, which steps decide whether the store is the fold of the log; when a start succeeds and what it gives |
| `OrderlyRuns` | runs whose puts keep to an order |
| `RecoveryRuns` | whole puts and starts as steps, and one run for each way to fail |
| `MemStore` | the registry object, with its nested maps changed in place |
| `Deltas` | coalesced pending lists |
| `Merge` | the merged view, rebuilt and changed in place |
| `PeerLink`, `PeerLinkTheorems` | one source and one watcher |
| `Mesh`, `MeshConvergence` | N nodes that all copy each other |
| `PeerSync`, `PeerPeriods`, `PeerHealth` | the worker that fetches from one peer; that worker on the link; the table of peers that a node has heard of |
| `Leases`, `LeaseRuns`, `LeaseTimes` | registrations over HTTP with a lease, their interleavings with the cleanup, and how long a lease lasts |
| `DnsNames`, `DnsCache`, `Ptr` | qualified names, the cache, reverse names |

## How the model is built

Objects that the program updates in place are classes here (`Folder`, `DiskWal`, `DiskvStorage`,
`KVStorageAdvImpl`, `MemStore`, `PeerTable`, `HttpEndpoint`, `DnsMemCache`). Each of their methods is proved equal to a function
from the old state to the new one, and the theorems are about those functions. Protocols are state machines whose
steps are the program's atomic actions: one durable write, one critical section, one request or response.
The mesh is built from the stores themselves; that each of its steps is a step of the two-node link, or
none, is proved (`Mesh.StepProjects`), so the two-node results carry over.

Times, random numbers, the results of requests, and the order in which Go ranges over a map are parameters or free
choices. Counters are integers; where a 64-bit counter could overflow, `Room` and `ValidNumber` say so. The 16-bit sum
in the page check does wrap, as in the program.

The functions that specify the methods share their constants and helpers with them. So beside the theorems there are
lemmas that say in plain numbers, characters and bytes what these come to: the check value and the polynomial of the
checksum, every byte of a page and of an encoded record, the characters of file names, keys and reverse names, the ten
and twenty seconds, and each outcome of opening and replaying.

## What does not hold, and exactly when it does

* Put takes no lock. A store that serves with nothing in flight equals the in-order fold of its log if and only if,
  for each key, the page that wrote it last is the last put of the key or has its value
  (`RecoveryExact.ServingStoreExact`). Whether it is, is decided by the order of the log, store and version steps:
  a store write must not have been overtaken by a later put of its key, and a crash must not cut off the last put of a
  key (`StepExact`, `RunExact`, `ServingStoreVerdict`). `RecoveryRuns.OvertakenPut` and `CutOffPut` are the two runs
  that fail.
* In runs whose puts keep to an order, and log no entry with an inner page that decodes by itself, the store equals
  the fold *unless* the first put of all was cut between its log append and its store write
  (`OrderlyRuns.StartedStoreExact`, with the exact condition; `RecoveryRuns.FirstPutLost`).
  The cause is that a missing version is read as the position after the first page.
* The replay hands over single pages. A start from a version that the store wrote succeeds exactly if each page it
  replays is the only page of a put with a good key, or lies inside a longer entry and happens to decode by itself
  (`RecoveryExact.StartSucceeds`): so a replay that reaches the first page of a longer entry fails
  (`RecoveryRuns.LongPutBlocks`), and one that begins inside such an entry can write a key that nobody put
  (`RecoveryRuns.NobodysKey`). `StartGivesFold` says when the result is the fold.
* One refused key that has to be replayed makes a start fail (`RecoveryRuns.RefusedPutBlocks`), and a start that fails
  once fails for ever, as long as no record that it replays overwrites the version (`RecoveryExact.FailsForEver`).
* A log that was cut after the first page of an entry stays unreadable: a broken end is added only after a Middle page
  (`WalRepair.ReopenedCutLog`, and `WalCuts.CutRunReadBack` for any number of cuts and restarts). The comment at
  `internal/wal/wal.go:259` promises one for every incomplete record; the model follows the code.
* A broken end goes to the last file even when that is full: opening makes a file exceed the size limit exactly if it
  was full and ended in a Middle page, and then by one page (`WalCuts.RepairOverfills`, `CutFileSizes`).
* The store's own key passes the key check. A put of it that is cut before its version step becomes the version, so
  that the next start fails unless the value decodes to one (`RecoveryRuns.VersionKeyCut`).
* A page's length field from 65528 up passes the length check and makes the slice fail
  (`WalPage.SlicePanics`, and `OverlongPagePanics` for such a page).
* A copy is wrong about a key, with nothing to come that puts it right, exactly if a step made it so and no full
  answer, new start or change of the key came after it (`PeerLinkTheorems.DivergedExactly`). The steps that make it so
  are given by their guards (`Starts`, `DivergedStep`): a lost response or a dropped list that carried the key's last
  word, a change that no list records, a response that such a change has overtaken, and a restart of the source. With
  the worker's schedule this lasts at most one period (`PeerPeriods.DivergenceLastsOnePeriod`). `LostDeltaDiverges` is
  the case of one lost delta; a full request that is handled late can hide a loss (`UnwatchedPublishDiverges`,
  `LateFullHidesLoss`).
* The view in place is right for a key that is changed locally exactly if no peer's copy has the key, or the change is a
  publish and some copy has it with the new address; after a delete it is wrong whenever any copy has the key
  (`Merge.LocalChangeMerged`). A rebuild depends on the order of the peers exactly if their copies disagree
  (`Merge.RebuildOrder`).
* Every watch has a record that a sweep will find, exactly as long as no record expires under a full request that is
  still being answered (`PeerHealth.RecordedStep`). The watch of such a request is never swept (`SlowFullStrays`).
* A registration that is refreshed while a sweep is about to delete it ends with a lease and without its
  entry in the store (`LeaseRuns.RefreshLost`, `RefreshLostRun`; `ExactStep` says when this happens).

## Model

| member | source | states |
|---|---|---|
| WalNames.CompareIsTotalOrder | internal/iface/wal.go:22-42 | Compare is zero only for equal positions, changes sign when its arguments change places, is transitive, and is negative exactly if the first position is earlier by term, then collection, then sequence number |
| WalNames.FilenameRoundTrip | internal/wal/wal.go:294-312 | a file's name gives back its term and collection, for all positive 64-bit numbers |
| WalNames.FilenameOrder | internal/wal/wal.go:132-138 | string order of names is the lexicographic order of (term, collection), and different pairs have different names |
| WalNames.NameCharacters | internal/wal/wal.go:132-138 | the thirty-two characters of a name are the lower-case hexadecimal digits of term and collection, highest first |
| WalNames.NameParsesExactly | internal/wal/wal.go:294-312 | a name is that of a log file exactly if it is, up to the case of its digits, what the program prints for two positive 64-bit numbers |
| WalNames.SortedUnique | internal/wal/wal.go:245-249 | a set of file names has one sorted listing |
| Crc32.UpdateIsEightShifts | internal/wal/wal.go:184 | the table lookup for a byte is the eight polynomial steps that define CRC-32 |
| Crc32.PolynomialOfCrc32 | internal/wal/wal.go:184 | the register step adds the polynomial of CRC-32, given by its fourteen exponents below 32 |
| Crc32.ShiftByPolynomial | internal/wal/wal.go:184 | every register is shifted down, and gets that polynomial added exactly if its lowest bit was set |
| Crc32.CheckValue | internal/wal/wal.go:382 | the checksum of the digits 1 to 9 is 0xcbf43926, and that of nothing is 0 |
| Crc32.FourByteDamageChangesChecksum | internal/wal/wal.go:382 | two messages of one length that differ, but only inside four adjacent bytes, have different checksums |
| WalPage.PrepareDataBufByPage | internal/wal/wal.go:179-186 | fills a fresh buffer in place with the page that the format prescribes |
| WalPage.PageRecordsInfo | internal/wal/wal.go:371-402 | reads the record of a page or says why not, and leaves the buffer's checksum field cleared |
| WalFormat.PageLayout | internal/wal/wal.go:179-186 | all 4096 bytes of a page: header and tag, length, checksum, a zero, the data, and zeros |
| WalFormat.DecodedExactly | internal/wal/wal.go:371-402 | any 4096 bytes hold one record exactly if the checksum is right and the length at most 4088; from 4089 they are refused, from 65528 the program fails |
| WalPage.PageRoundTrip | internal/wal/wal.go:179-186 | a page gives its record back exactly when the data has at most 4088 bytes |
| WalPage.SlicePanics | internal/wal/wal.go:386-399 | the 16-bit check lets a length field through to a failing slice exactly for the eight largest values |
| WalPage.OverlongPagePanics | internal/wal/wal.go:179-186 | such a page exists: the page-filling function makes it of 65535 bytes, more than its callers ever pass |
| WalPage.DamageNoticed | internal/wal/wal.go:375-385 | any damage within four adjacent bytes, all in the checksum field or none of them, is rejected as a checksum mismatch |
| WalEntries.FragmentsFit | internal/wal/wal.go:83-121 | an entry of n bytes takes max(1, ceil(n/4088)) pages, each within bounds, the last one Whole or End |
| WalFormat.FragmentsAt | internal/wal/wal.go:79-121 | the tag and the data of each page of an entry, by its place |
| WalEntries.ReassembleAll | internal/wal/wal.go:93-121 | grouping tagged fragments gives back any list of entries of any lengths |
| WalEntries.PagesGiveEntries | internal/wal/wal.go:79-130 | the pages of any list of entries read back as its fragments and regroup to exactly that list |
| WalEntries.PagesInjective | internal/wal/wal.go:79-130 | two lists of entries with the same pages are the same list |
| DiskWal.DiskWal.GuaranteePage | internal/wal/wal.go:140-167 | opens the first file, or the next one when the current one is full |
| DiskWal.DiskWal.WriteDataPage | internal/wal/wal.go:169-177 | appends one page and moves the position by one |
| DiskWal.DiskWal.WriteEntryWithFullPage | internal/wal/wal.go:79-130 | appends the pages of the entry one by one with rotation between any two, and returns the position of the last |
| DiskWal.DiskWal.ListWalFiles | internal/wal/wal.go:195-217 | lists exactly the log files, sorted |
| DiskWal.DiskWal.ReadWalFileInfo | internal/wal/wal.go:314-369 | counts the records of a file, adds a broken end after a last Middle, and fails on a bad page or an empty file |
| DiskWal.DiskWal.SeekWalFileWritePoint | internal/wal/wal.go:412-436 | adds the file's pages to the occupied count and opens it for appending |
| DiskWal.DiskWal.Initialize | internal/wal/wal.go:219-292 | the position after a restart, the repaired file, and the errors that leave everything as it was (`WalOpening.OpensExactly` says when which) |
| WalOpening.OpensExactly | internal/wal/wal.go:219-292 | for every folder: the log opens if and only if there is no log file, or the last one is not empty and each of its pages holds a record; then the counters are those of its name and its pages, and else the error is that of the first bad page |
| WalOpening.DamagedLogStaysClosed | internal/wal/wal.go:339-343 | damage within four adjacent bytes on one side of the checksum field in any page of the last file keeps the log closed |
| DiskWal.DiskWal.ReplayFile | internal/wal/wal.go:484-511 | calls back with every page's record in order until a page or the callback fails |
| DiskWal.DiskWal.ReplayIncomplete | internal/wal/wal.go:438-482 | the choice of the first file, the callbacks made, and the outcome in all cases |
| WalRuns.AppendedAt | internal/wal/wal.go:140-177 | appending pages to a log keeps it in the one layout that its page count determines, with the position after that count |
| WalRuns.FileSizes | internal/wal/wal.go:152-165 | every file but the last is exactly full, none exceeds the limit, none is empty |
| WalFormat.PositionNumbers | internal/wal/wal.go:152-165 | the n-th page stands in file (n-1)/262144+1 at place (n-1) mod 262144+1, from (1, 1, 1) on |
| WalRuns.RestartRestores | internal/wal/wal.go:219-292 | opening the files left by complete entries restores term, collection, sequence number, occupied pages and open file |
| WalRuns.CleanRun | internal/wal/wal.go:79-177 | any run of complete entries and clean restarts leaves the pages of the entries, returns their positions, and ends as without the restarts |
| WalRuns.FilesGiveEntries | internal/wal/wal.go:79-177 | the files of such a run, read in name order, regroup to exactly its entries, also those that lie across two files |
| WalRuns.PositionOrder | internal/iface/wal.go:22-42 | Compare orders positions as their page counts |
| WalRuns.IdsIncrease | internal/wal/wal.go:125-129 | ids returned later compare greater |
| WalRepair.CutLogGroups | internal/wal/wal.go:349-367 | complete entries, the first k pages of a longer one, and complete entries after the log was opened again group to exactly the complete ones if k is at least 2, and are unreadable otherwise |
| WalRepair.ReopenedCutLog | internal/wal/wal.go:258-271 | the files of complete entries and the first k pages of a longer one, opened again, read back as the complete ones if and only if k is at least 2 |
| WalCuts.CutRunReadBack | internal/wal/wal.go:79-292 | over every run of writes, entries cut after any of their pages, and restarts: the log always opens, and its files in the order of their names group to exactly the entries written whole, unless an entry was cut after its first page, and then cannot be grouped |
| WalCuts.RepairOverfills | internal/wal/wal.go:258-271 | opening a file of allowed size makes it exceed the limit exactly if it is full and ends in a Middle page |
| WalCuts.CutFileSizes | internal/wal/wal.go:140-167 | after any such run no file is empty or more than one page over the limit, and the page over it is a broken end after a Middle page |
| WalReplay.ReplayComplete | internal/wal/wal.go:484-511 | a replay ends well exactly if all pages are good and the callback refuses none, and then hands over each record once, in order |
| WalReplay.ReplayStops | internal/wal/wal.go:484-511 | a replay that does not end well stops at the first page that is bad or whose record the callback refuses, with the records before it handed over, and a refused one too, and says which it was |
| WalReplay.ReplayCovers | internal/wal/wal.go:438-482 | a successful replay hands over every page from one file's start to the log's end, and every skipped file holds earlier positions only |
| WalReplay.ReplayFromPosition | internal/wal/wal.go:456-476 | from the i-th position, the replay starts at the first page of the file that holds the i-th page |
| WalReplay.EarlyAnswers | internal/wal/wal.go:438-455 | in any state of the counters: the answers at the end of the log, without a log and after its end, in this order |
| WalReplay.ReplayOutcomes | internal/wal/wal.go:438-482 | what a replay does for every 64-bit position: nothing at the end or without a log, an error and no call after the end or before the first file, else all pages from the start of the position's file |
| Cbor.EntryRoundTrip | internal/service/solestorage.go:113-119 | an encoded log entry decodes to itself |
| Cbor.TruncatedEntry | internal/service/solestorage.go:91-97 | no proper prefix of an encoded entry decodes |
| Cbor.ExtendedEntry | internal/service/solestorage.go:91-97 | an encoded entry with anything behind it does not decode |
| Cbor.VersionRoundTrip | internal/service/solestorage.go:67-89 | an encoded version decodes to itself |
| Cbor.VersionThen | internal/service/solestorage.go:67-81 | an encoded version decodes to itself, and not with anything behind it |
| Cbor.LargeNumber | internal/service/solestorage.go:75-80 | a number outside the signed 64 bits is refused |
| Cbor.HeadBytes | internal/service/solestorage.go:113-119 | each byte of the head of a data item, as section 3 of RFC 8949 has it |
| Cbor.EntryBytes | internal/service/solestorage.go:13-17 | an entry is a map of three with the keys K, V and D, in bytes |
| Cbor.VersionBytes | internal/service/solestorage.go:83-89 | a version is a map of three with the keys Term, Collection and Seq, in bytes |
| SoleStorage.DiskvStorage.Put | internal/storage/impl.diskv.go:41-47 | a key is taken exactly if it is not empty and of the sixty-three characters 0-9, A-Z, _ and a-z; any other is refused and changes nothing |
| SoleStorage.KVStorageAdvImpl.Put | internal/service/solestorage.go:99-111 | logs first; a key that is not of those characters, or empty, leaves the store alone and stays in the log; otherwise the value and the new version are written |
| SoleStorage.KVStorageAdvImpl.RecoverFn | internal/service/solestorage.go:91-97 | applies one logged entry to the store, or fails on an undecodable or refused one |
| SoleStorage.LoggedEntryRecovers | internal/service/solestorage.go:91-119 | what a put logs decodes to its key and value, and recovery applies it exactly if the key is of those characters |
| SoleStorage.WrittenVersionRead | internal/service/solestorage.go:67-89 | the version read is the one written last, or (1, 1, 1) if none was; writing it changes no other key |
| SoleStorage.VersionKeyText | internal/storage/constants.go:3 | the store's own key, by its characters |
| SoleStorage.KVStorageAdvImpl.Initialize | internal/service/solestorage.go:46-65 | opens the log, replays from the version's file into the store, writes the version only on success |
| SoleStorage.VersionKeyPut | internal/storage/validation.go:7-19 | the store's own key passes the key check, and a value put there is what the next start reads as the version, or fails to read |
| Recovery.RunKeeps | internal/service/solestorage.go:46-111 | in every run of puts of any key and length, overlapping in any way, with crashes at any durable step (also inside a replay) and restarts: the files hold the log; the version that the store wrote last ends an entry, or is the position after the first page, and it stands unless a put or a replay has overwritten it; and each other key has the value of the page that wrote it last |
| RecoveryExact.StepExact | internal/service/solestorage.go:99-111 | a step leaves a key right if and only if it is no store write that a later put of the key has overtaken, and no crash that cuts off the key's last put |
| RecoveryExact.RunExact | internal/service/solestorage.go:46-111 | over a whole run, the order of the log, store and version steps and the crashes decides whether a key is right |
| RecoveryExact.ServingStoreExact | internal/service/solestorage.go:46-111 | over every run, a store that serves with nothing in flight is the fold of the log if and only if each key was written last by its last put, or with its value |
| RecoveryExact.ServingStoreVerdict | internal/service/solestorage.go:46-111 | the same by the order of the steps alone: sufficient always, and necessary when no two pages write the same value to a key |
| RecoveryExact.StartGivesFold | internal/service/solestorage.go:46-65 | a start gives the fold if and only if for each key the last replayed page that writes it, or else its last writer, is its last put or has its value |
| RecoveryExact.StartSucceeds | internal/service/solestorage.go:46-65 | unless a put or a replay has overwritten the version: the log always opens, and the replay succeeds exactly when nothing is to be replayed or every page from the version's file on is a whole put with a good key or decodes by itself |
| RecoveryExact.FailsForEver | internal/service/solestorage.go:46-65 | after a start that failed, as long as no record to be replayed overwrites the version: no run ever serves again, and every further start fails too |
| OrderlyRuns.StartedStoreExact | internal/service/solestorage.go:46-111 | in every run whose puts keep to an order and log no entry with an inner page that decodes by itself, a serving store is the fold of the log if and only if the first put was not cut, or was refused, replayed or overwritten |
| OrderlyRuns.StartedStoreIsFold | internal/service/solestorage.go:46-111 | in such a run with no crash inside the very first put, a serving store always equals the fold |
| RecoveryRuns.WholePut | internal/service/solestorage.go:99-111 | the three durable steps of an uncut, uninterrupted put add up to what the whole of Put does, for good and for refused keys |
| RecoveryRuns.RecoverAll | internal/service/solestorage.go:58 | the single steps of a replay add up to what the whole of Initialize does to the store |
| RecoveryRuns.FirstPutLost | internal/wal/wal.go:41 | for any one-page entry, a run that crashes inside the first put and starts again: the log has the entry, the store does not |
| RecoveryRuns.OvertakenPut | internal/service/solestorage.go:106 | two overlapping puts of one key: the store keeps the value of the earlier |
| RecoveryRuns.CutOffPut | internal/service/solestorage.go:106-109 | two overlapping puts of different keys and a crash: the earlier is in the log, is never replayed, and is not in the store |
| RecoveryRuns.NobodysKey | internal/wal/wal.go:503-507 | a replay that begins inside an entry succeeds and writes a key that no put names |
| RecoveryRuns.RefusedPutBlocks | internal/service/solestorage.go:58-60 | two puts of a refused key and a crash: the next start fails |
| RecoveryRuns.LongPutBlocks | internal/wal/wal.go:503-507 | for any entry of more than one page, a run that crashes between log and store in its put, the first of all: the next start fails |
| RecoveryRuns.VersionKeyCut | internal/service/solestorage.go:67-81 | a run that crashes inside a put of the store's own key: the log opens, but the version that is read is the value put, so the start fails unless that decodes to one |
| MemStore.MemStore.PublishService | storage.mem.go:65-102 | updates view, own registrations and every pending list at once |
| MemStore.MemStore.DeleteService | storage.mem.go:115-154 | removes from view and own registrations, drops empty services, updates every pending list |
| MemStore.RebuildServiceItemList | storage.mem.go:104-113 | keeps exactly the items of other keys, in order |
| MemStore.CopyMap | storage.mem.go:173-186 | copies a nested map over another, in whatever order it is ranged over |
| MemStore.MemStore.BuildMemData | storage.mem.go:156-171 | the view becomes the own registrations with all copies laid over them in some order |
| MemStore.MemStore.FullFrom | storage.mem.go:214-230 | replaces the peer's copy and rebuilds, or changes nothing when the message is missing or malformed |
| MemStore.MemStore.SyncFrom | storage.mem.go:232-287 | applies deletions, then additions, to the peer's copy and rebuilds; refuses an unknown peer |
| MemStore.MemStore.Abandon | storage.mem.go:289-299 | drops the peer's copy and rebuilds, or changes nothing |
| MemStore.MemStore.FetchFullAndWatch | storage.mem.go:301-321 | gives the own registrations; a list that is already there stays |
| MemStore.MemStore.FetchChangesForPeerNodeRequest | storage.mem.go:323-347 | gives the pending list and empties it; refuses a peer that is not watched |
| MemStore.SameLookups | storage.mem.go:118-136 | without empty services, two registries with the same lookups are the same |
| Deltas.CoalescingExact | storage.mem.go:258-283 | draining a list onto a copy gives the source exactly if the list is exact and the copy agrees outside the list's keys |
| Deltas.CoalescedHistory | storage.mem.go:87-113 | however many changes a list coalesced, draining it onto a copy taken at any moment of that history gives the present registrations |
| Deltas.PendingIsHistory | storage.mem.go:83-152 | the two lists are, in order, the publishes and the deletes since the last drain that no later change of the other kind undid |
| Merge.BuildLookup | storage.mem.go:156-171 | a rebuild shows for each key the value of the last peer that has it, and else the own one |
| Merge.RebuildOrder | storage.mem.go:165-167 | a rebuild gives the same view for every order of the peers if and only if their copies agree on shared keys |
| Merge.LocalChangeMerged | storage.mem.go:65-154 | after a local change the view is right for its key if and only if no copy has the key or one has it with the new address, and as right as before for all others |
| Merge.RunRebuilt | storage.mem.go:65-299 | in every run in which no key is changed locally while a copy has it and peers send no empty services, the view is after every operation a merge of all that the node has, and shows for each key a copy's value or else the own one |
| PeerLink.RunKeeps | core.ha.go:147-246 | in every run of two nodes, with late, lost and abandoned requests, unwatches and restarts, the copy agrees with the source outside the pending, arriving and lost keys |
| PeerLink.QuietReplica | core.ha.go:147-246 | with nothing pending, arriving or lost, the copy is the source |
| PeerLinkTheorems.GentleRunLosesNothing | core.ha.go:195-222 | keys are lost only through a lost or late drain, an unwatch or a restart of the source |
| PeerLinkTheorems.NoDeltaBeforeFull | core.ha.peertalk.go:226-254 | after an unwatch no delta is answered or under way before a full response is delivered, or a full request that was given up is handled |
| PeerLinkTheorems.LastDeltaBeforeFull | core.ha.peertalk.go:226-254 | with a delta already under way, that one is the last |
| PeerLinkTheorems.LateFullHidesLoss | storage.mem.go:307-315 | with such a request a delta does reach a wrong copy, which stays wrong |
| PeerLinkTheorems.UnwatchedPublishDiverges | core.ha.go:106-112 | a run from the start to such a wrong copy: a full fetch, an unwatch, and a publish |
| PeerLinkTheorems.DivergenceLasts | core.ha.go:207-209 | a wrong key stays wrong in every run without a full answer, a new start or another change of the key |
| PeerLinkTheorems.DivergedStep | core.ha.go:147-246 | in every state of every run, a step leaves a copy wrong for good about a key if and only if it makes it so by its guard, or it was so and the step is no repair |
| PeerLinkTheorems.DivergedExactly | core.ha.go:147-246 | over every run: the copy ends wrong for good about a key if and only if some step made it so, or it began so, and no repair came later |
| PeerLinkTheorems.LostDeltaDiverges | core.ha.go:207-209 | losing the one response that carries a publish makes its key wrong, for as long as that |
| PeerLinkTheorems.OneAnswerSettles | core.ha.go:189-242 | when the source is quiet, one delivered full response, or one delta with nothing lost, makes the copy equal to the source for good, whatever stale lists follow |
| Mesh.StepProjects | core.ha.go:75-94 | every step of N nodes with their stores is, for every ordered pair, one step of the two-node protocol or none |
| Mesh.RunLinksInv | core.ha.go:75-94 | in every run of the mesh, every pair keeps the two-node invariant |
| MeshConvergence.RunMeshInv | storage.mem.go:65-299 | in every run with one owner for each key, every view is the merge of what the node has, and copies hold only their owners' keys |
| MeshConvergence.CurrentCopiesConverge | storage.mem.go:156-186 | up-to-date copies of sources that agree make all views the same union |
| MeshConvergence.MeshConverges | README.md:186-187 | once every node has taken from every other a full response, or a delta with nothing lost, since that node's last change, all views equal the union of all registrations |
| PeerSync.Period | core.ha.go:187-243 | from one full fetch to the next attempt at one, or to a restart: exactly which attempts are made, why it ends, and that it ends |
| PeerSync.AttemptsCounted | core.ha.go:187-223 | attempts are at most eleven for each success plus the current run of failures |
| PeerSync.AttemptsAllowed | core.ha.go:187-223 | before each attempt there were fewer successes than 590 and its random number, and at most ten failures in a row |
| PeerSync.PeriodBounds | core.ha.go:187-223 | at most 6699 attempts and 609 successes, whatever the random limits |
| PeerSync.BoundReached | core.ha.go:187-223 | 6699 attempts with 609 successes do happen in the loop, when every random limit is 609 |
| PeerPeriods.DivergenceLastsOnePeriod | core.ha.go:187-243 | whatever was lost, at the end of a period, so after at most 6699 attempts, a copy is wrong for good about a key only through a step of the full fetch or new start that ends the period |
| PeerHealth.PeerTable.UpdateClientTime | core.ha.peertalk.go:43-58 | records the time; an incremental request from an unknown peer is refused; and this is the machine's step of a request that was heard |
| PeerHealth.PeerTable.ClusterFull | core.ha.peertalk.go:149-184 | records, watches, and answers with the own registrations; the machine's two steps of a full request add up to it |
| PeerHealth.PeerTable.ClusterIncremental | core.ha.peertalk.go:226-252 | drains the list of a peer that is both known and watched, and refuses any other; one step of the machine |
| PeerHealth.PeerTable.Sweep | core.ha.go:96-122 | exactly the peers whose last request is over 20000 ms old lose their record and their watch; one step of the machine |
| PeerHealth.RecordedStep | core.ha.go:102-120 | a step keeps every watch recorded if and only if it is no sweep that expires the record of a full request still being answered |
| PeerHealth.PromptRunRecords | core.ha.go:102-120 | while no full request outlives its record, every watch has a record |
| PeerHealth.SilentPeerForgotten | core.ha.go:102-120 | then a silent peer is neither watched nor known after the next sweep, and its incremental requests are refused |
| PeerHealth.RecentPeerSpared | core.ha.go:98-120 | a sweep leaves record and watch of a peer that was heard of at most 20000 ms before |
| PeerHealth.AskingPeerStays | core.ha.go:96-122 | in every run in which no sweep comes more than 20000 ms after the peer's last request, its record stays, with the time of that request, and so does its watch |
| PeerHealth.AskingPeerAnswered | core.ha.peertalk.go:226-252 | after a full request, such a peer has its incremental requests answered |
| PeerHealth.SlowFullStrays | core.ha.peertalk.go:149-166 | a full request that outlives its record leaves a watch that no later sweep removes |
| Leases.HttpEndpoint.PublishService | endpoint.http.go:165-190 | publishes in the store, then enters or refreshes the lease: its time is now, it has the service besides those it had, and no other lease changes |
| Leases.HttpEndpoint.CheckPublishClients | endpoint.http.go:68-101 | exactly the nodes whose last publish is over 10000 ms old lose their leases, and the store deletes what they had leased, each once |
| Leases.CleanupRemovesLeased | endpoint.http.go:85-96 | the cleanup removes from the store the leased registrations of the nodes whose last publish is over 10000 ms old, and nothing else |
| Leases.CleanupRecorded | endpoint.http.go:85-91 | every watcher's list of deletions gets the removed registrations, with the addresses they were leased for |
| LeaseRuns.PublishSteps | endpoint.http.go:165-190 | the two steps of a publish add up to what the whole method does to store and leases |
| LeaseRuns.WholeSweep | endpoint.http.go:68-101 | the single steps of an undisturbed sweep can run to its end and add up to the cleanup: silent nodes lose their leases, and the store exactly what they had leased |
| LeaseRuns.RunCovered | endpoint.http.go:144-193 | in every interleaving every registration has a lease or belongs to a publish in flight |
| LeaseRuns.SilentNodeGone | endpoint.http.go:74-99 | a silent node with nothing in flight has no lease and no registration after the next sweep |
| LeaseRuns.SweepSpares | endpoint.http.go:78-97 | a sweep takes neither lease nor registration from a node that was heard of within ten seconds before it began |
| LeaseTimes.FreshLeaseStays | endpoint.http.go:172-190 | in every interleaving in which no sweep begins more than 10000 ms after the node's last publish, a lease that was entered stays, with the time of that publish, and so does the registration unless it was gone before |
| LeaseTimes.PublishLasts | endpoint.http.go:165-190 | a publish with no sweep under way ends with a lease and a registration that last as long as that |
| LeaseTimes.PublishThenSweep | endpoint.http.go:68-97 | a sweep that begins at most 10000 ms after a publish takes neither lease nor registration from its node |
| LeaseTimes.StaleLeaseFalls | endpoint.http.go:74-97 | an undisturbed sweep that begins later than that takes both |
| LeaseRuns.ExactStep | endpoint.http.go:74-190 | registrations stay exactly the leased and in-flight ones in a step if and only if it does not delete one that is in flight |
| LeaseRuns.RunExact | endpoint.http.go:74-190 | so they are exactly those in every run without such a step |
| LeaseRuns.RefreshLost | endpoint.http.go:85-96 | a publish between a sweep's beginning and its deletion of the same registration ends with a lease and no registration |
| LeaseRuns.RefreshLostRun | endpoint.http.go:68-193 | such a run from an empty endpoint, to its end |
| DnsCache.CheckHasValidTTL | internal/dnscore/cache.go:92-105 | the least TTL over the headers; cacheable exactly if none is zero and one is below the maximum |
| DnsCache.DnsMemCache.Put | internal/dnscore/cache.go:41-55 | stores a cacheable response with its time and TTL, and ignores any other |
| DnsCache.DnsMemCache.Get | internal/dnscore/cache.go:57-71 | the stored response if no more seconds have passed than its TTL, with identifier, question, flags and code set for the request |
| DnsCache.DnsMemCache.Cleanup | internal/dnscore/cache.go:73-90 | removes exactly the entries older than their TTL |
| DnsCache.GetIsLastPut | internal/dnscore/cache.go:41-71 | a lookup finds the response of the last cacheable put for its key exactly if that is not too old |
| DnsCache.LookupExactly | internal/dnscore/cache.go:41-105 | by the puts alone: a lookup finds a response exactly if the last put for its key with no zero TTL and some TTL below the maximum lies no further back than each of its TTLs |
| DnsCache.SweepsUnseen | internal/dnscore/cache.go:73-90 | sweeps change no later lookup |
| DnsCache.SharedKey | internal/dnscore/cache.go:107-109 | two requests share a key exactly if their names are the same up to case and a final dot and their types are the same |
| DnsCache.LowerCharacters | internal/dnscore/cache.go:107-109 | the lower-case letters of the alphabet, in order |
| DnsCache.QualifiedExactly | internal/dnscore/cache.go:107-109 | a name is qualified if it ends in a dot after an even number of backslashes, and any other name gets a dot |
| Ptr.FromIPAddressToPtrFqdn | internal/dnscore/handlers.ptr.utils.go:21-41 | builds the reverse name, reversing the digits in place |
| Ptr.V6Characters | internal/dnscore/handlers.ptr.utils.go:29-39 | the 73 characters of a name for any address but those of the form ::ffff:a.b.c.d |
| Ptr.V4Characters | internal/dnscore/handlers.ptr.utils.go:26-28 | the name for those: four decimal numbers without leading zeros, last byte first |
| Ptr.PtrRoundTrip | internal/dnscore/handlers.ptr.utils.go:21-41 | a parser recovers the 16-byte address from the name |
| Ptr.PtrInjective | internal/dnscore/handlers.ptr.utils.go:21-41 | two addresses share a name exactly if their 16-byte forms are the same |

## Left out

- Torn pages and I/O errors: files hold whole pages, every durable step either happens or does not, and creating a file and writing its first page are one step.
- A crash inside an entry of several pages is modelled for the log (`WalRepair`, `WalCuts`), and is no step of the store's machine (`Recovery`).
- The background fsync loop and the dirty flag: a page is durable when it is written.
- Recovery.RunKeeps: a start from a version that a put of the store's own key `____sequence_id____`, or the replay of one, has overwritten. Such a start fails if the value does not decode to a version (`VersionKeyPut`, `VersionKeyCut`); what it replays if it does is not modelled; everything before such a start is.
- RecoveryExact.FailsForEver: does not cover logs in which a record to be replayed overwrites the version, for the same reason.
- WalNames.FilenameRoundTrip: does not model Sscanf's tolerance of blanks and signs in names that the program did not write itself.
- WalReplay.ReplayCovers: names of log files are those the program writes; a name in upper-case digits would be read too, but sorts elsewhere.
- WalPage.PageRecordsInfo: the record is a copy here, while the program's slice shares the page buffer.
- Cbor.EntryRoundTrip: a nil and an empty value are one, and of the decoder only the layout that the encoder writes is modelled.
- diskv: a plain map from keys to values; LatestSnapshotData, WalLogs and Replay are not modelled.
- JSON: a message is missing, malformed, or the value that was sent; a snapshot without its map is malformed.
- MemStore.MemStore.PublishService: inner maps are values that are put back, so sharing of an inner map between two registries is not modelled; the program copies them.
- PeerLink.RunKeeps: at most one request of a worker is out at a time; any number of given-up requests may still be handled later.
- MeshConvergence.MeshConverges: conflicting registrations of one key with several nodes are excluded, as the program's documentation does; `CurrentCopiesConverge` covers equal ones.
- PeerSync.Period: sleeping, connecting and the queue to the single writer are not modelled; one result per attempt is.
- DnsCache.DnsMemCache.Get: sharing of the stored message with its sender is not modelled.
- DnsCache.SharedKey: lower-casing is that of ASCII.
- Ptr.FromIPAddressToPtrFqdn: parsing the textual address is not modelled; an address is its 16 bytes.
- SimplePrimaryStandby: its peer maps are never created and its log access is unimplemented.
- HTTP routing, authentication, name resolution handlers, the upstream forwarder, dynamic configuration, and lookups in nested stores: they would only add simple facts.
