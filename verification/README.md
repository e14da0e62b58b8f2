# ScuteDB in Dafny

A model of the storage core of ScuteDB, and proofs of what that core is for. Four parts, from the disk upwards:

* **The page store** (`internal/pagestore`, over `internal/page`). `SimulatedDisk` is a disk behind a page cache: what
  the platter holds, what reads see, and the writes made since the last fsync, with the faults of the repository's own
  fake file — an fsync that fails, keeps some writes and marks the rest clean; a restart; a restart that evicts clean
  pages; a power cut that keeps any subset of the unsynced writes. `StoreFormat` and `Recovery` say which bytes are
  written and what opening an image makes of them, `StoreBytes` spells those bytes out. `CommitProtocol` is the commit
  order as a state machine with an inductive invariant, `CrashSafety` draws the conclusions over whole runs.
  `PageFile.File` and `PageStore.Store` are the imperative code. The file carries, as a ghost, the run of protocol
  states it has been through, the outcome of every single page write and fsync, and how many calls have failed. Every
  method says what it adds to all of them, so that a crash in the middle of a method is covered like any other;
  `StoreCrashes` says what comes back after one, and `StoreOracle` and `StoreRuns` what a caller sees over whole runs.
* **The B+Tree** (`internal/btree`). `LinkedNodes.Node` and `BTree.Tree` are the mutable nodes, rewritten in place,
  with the sideways leaf chain. Every node method is proved against an operation on value trees (`BTreeModel`), and
  those operations against sorted sequences and finite maps (`BTreeInvariant`, `BTreeContents`, `BTreeMap`).
  `BTreeShape` says where exactly a tree changes its shape. `RangeScan.Iterator` is the lazy range iterator,
  `TreeCheck` is Validate.
* **The node page** (`internal/nodepage`). `NodePage.Node` is a 4096-byte array, `SlottedPage` its layout, `Tiling`
  the argument that sorting spans by start decides whether they tile a range, `NodeBytes` what all of it says byte by
  byte.
* **The codec** (`internal/codec`). Variable-length integers, length-prefixed framing, and keys that sort as bytes the
  way their values sort as numbers.

The central results:

* Over any run of page writes, commits, fsyncs that succeed or lose writes, restarts, evictions and power cuts, from
  any file, whatever a further crash leaves on the disk opens as exactly the checkpoint committed last or the one
  whose page 0 had already been written (`CrashSafety.EveryCrashRecovers`), and between two commits nothing changes
  which one (`CrashSafety.RecoveryIsStable`).
* The methods of `Store` take only steps of that machine. Allocate, Free, Write and Sync never change which checkpoint
  a crash recovers, at no moment of the call and whether they succeed or fail; a checkpoint under way leaves the old
  one or the new one, complete; opening settles on the one it has read; and a store is poisoned exactly when an fsync
  or the write of page 0 has failed. So a store, poisoned or not, opens again after any crash as its last checkpoint,
  or, if it was poisoned, possibly as the one whose commit failed (`StoreCrashes.CrashInsideCall`,
  `StoreCrashes.CrashInsideCheckpoint`, `StoreCrashes.CrashAndReopen`).
* Over any sequence of calls, failures, crashes and reopenings, on a blank file or one that holds a store, a caller sees
  what a small oracle without a disk allows: a root, the pages in use, their bytes, and a copy of all that at the last
  checkpoint, to which a crash goes back (`StoreOracle`, `StoreRuns.Run`). In particular a page that was written and
  checkpointed reads back byte for byte after any number of crashes (`StoreOracle.WrittenReadsBack`).
* A checkpoint puts its free list on the fewest pages that can carry it, reusable ones before new ones, and what it
  leaves for reuse, and in which order, follows from the books alone; while the reusable ones suffice, the file
  does not grow (`CheckpointPlan.InTurnIsCarried`, `CheckpointPlan.ReusableFirst`).
* Every page the program writes is fixed byte by byte, by layouts stated apart from the code that writes them, and so is
  what it makes of any bytes it reads (`StoreBytes`, `NodeBytes`, `Recovery.RecoverMeans`).
* For every order of at least 3, `Put`, `Delete` and `Get` are the operations of a finite map, on node objects whose
  fields are rewritten in place, through every split, borrow, merge and root collapse, and the leaf chain stays the
  leaves in order. A scan yields exactly the entries in its half-open range.
* `Validate` of the node page accepts exactly the well-formed pages, on any bytes; `Validate` of the tree exactly the
  well-formed trees, on any nodes, shared ones and circles of children or of leaf links included.

Three hypotheses of the page store are made explicit rather than assumed away:

* **Page 0 is written whole or not at all.** Every other write may be torn at any byte (`PageFile.File.WriteAt`).
* **Callers copy on write.** `Write` accepts any owned page. A generation vouches for the bytes of the pages it
  references; a page rewritten in place drops out of that promise, and only that page.
  `CrashSafety.CopyOnWriteLosesNothing` and `CrashSafety.InPlaceWriteShowsThrough` are the two directions.
* **The checkpoint number is a 32-bit counter that wraps.** The model adds modulo 2^32, and nothing depends on the
  numbers being different.

Notation: pages, keys and byte slices are sequences, except where the source keeps one buffer and writes into it
(`NodePage.Node`). Errors are kinds without text. I/O calls may fail at any time, by a choice the method does not
control, and I/O errors come of failed calls and of nothing else.

## Model

| member | source | states |
|---|---|---|
| SimulatedDisk.Put | internal/pagestore/memfile_test.go:47-62 | a page write changes its own slot only, and extends a shorter file with zeros |
| SimulatedDisk.KeptLands | internal/pagestore/memfile_test.go:64-71 | whatever subset of the waiting writes lands, every page has the data of the last kept write to it, or what it had; the file is as long as it was, or ends with a page that was written |
| SimulatedDisk.LandsOnce | internal/pagestore/memfile_test.go:64-71 | and there is only one image of which that holds |
| SimulatedDisk.WriteWaits | internal/pagestore/memfile_test.go:64-88 | a write shows in reads at once, and not on the platter before the next fsync, which brings it there with all the others |
| SimulatedDisk.EvictedDrops | internal/pagestore/memfile_test.go:111-135 | after a restart a dropped page reads from the platter if no write to it is waiting; every other page reads as before |
| StoreBytes.NewPageBytes | internal/page/page.go:59-66 | a new page byte by byte: id, kind, count 0, free space from 16 to 4096, high byte first, zeros |
| StoreBytes.MetaBytes | internal/pagestore/pagestore.go:290-334 | a meta page byte by byte: the magic as text at 16, each field at its offset, high byte first, zeros from 56 on |
| StoreBytes.FirstMetaBytes | internal/pagestore/pagestore_test.go:76-113 | page 0 of a store just created, in plain bytes |
| StoreBytes.DecodeMeans | internal/pagestore/pagestore.go:301-334 | on any 4096 bytes, which error decoding gives, or which bytes each field is read from; the first check that fails decides |
| StoreBytes.ListBytes | internal/pagestore/pagestore.go:671-687 | a free-list page byte by byte, for any number of entries up to 1019 |
| StoreBytes.ListMeans | internal/pagestore/pagestore.go:366-388 | on any 4096 bytes, whether the page passes for the list page of that id, and from which bytes link and entries are read |
| StoreFormat.MetaRoundTrip | internal/pagestore/pagestore.go:290-334 | decoding what was encoded gives every field of the meta page back |
| StoreFormat.ListRoundTrip | internal/pagestore/pagestore.go:671-687 | a free-list page that was encoded reads back as the same link and the same entries, for any number up to capacity |
| StoreFormat.ZeroPageIsNoMeta | internal/pagestore/pagestore.go:290-295 | a page of zeros is never taken for a meta page |
| Recovery.ChainIsRead | internal/pagestore/pagestore.go:354-395 | the walk over any chain of list pages, of any length, returns its entries and its pages in order |
| Recovery.ReadIsChain | internal/pagestore/pagestore.go:354-395 | conversely, on any bytes, what the walk returns is a chain of distinct pages below the high-water mark that spells those entries |
| Recovery.ChainFrame | internal/pagestore/pagestore.go:354-395 | a chain depends on nothing but its own list pages |
| Recovery.DistinctFit | internal/pagestore/pagestore.go:397-418 | distinct ids below the high-water mark are fewer than it |
| Recovery.FreeCountIsExact | internal/pagestore/pagestore.go:390-393 | the comparison of 32-bit truncated counts is exact on every image the checks accept, by pigeonhole |
| Recovery.RecoverMeans | internal/pagestore/pagestore.go:237-260 | the images that open, and as what: page 0 in order, a chain of list pages from there that spells the free list, every page of both handed out and met once, the root none of them |
| Recovery.RejectedMeans | internal/pagestore/pagestore.go:237-260 | all others are rejected with the error their page 0 has, or as corrupt |
| Recovery.BlankMeans | internal/pagestore/pagestore.go:192-217 | a blank file has at most sixteen pages and only zero bytes |
| CommitProtocol.StepKeepsInv | internal/pagestore/memfile_test.go:64-144 | every step of the protocol, faults included, keeps the invariant over disk and generations |
| CommitProtocol.KeptBody | internal/pagestore/memfile_test.go:137-144 | whatever subset of harmless writes lands, everything a generation vouches for is intact |
| CommitProtocol.KeptHead | internal/pagestore/memfile_test.go:137-144 | and page 0 still announces one of the two generations |
| CommitProtocol.GenOfIsOk | internal/pagestore/pagestore.go:237-288 | every image is blank, rejected, or a well-formed generation with all its pages |
| CommitProtocol.RecoveredIsOk | internal/pagestore/pagestore.go:237-288 | whatever the checks of load accept is a well-formed checkpoint |
| CommitProtocol.BodyYields | internal/pagestore/pagestore.go:237-288 | an image that holds a generation's body under its page 0 opens as exactly that generation |
| CommitProtocol.SurvivesMeans | internal/pagestore/memfile_test.go:111-144 | the images a crash may leave are exactly those where some subset of the waiting writes has landed, and those where clean pages read from the platter |
| CommitProtocol.EveryFaultIsAStep | internal/pagestore/memfile_test.go:73-144 | a failed fsync, a power cut with any subset of the writes, and an eviction of any pages are steps of the protocol, told by what they do to each page |
| CrashSafety.RunIsSafe | internal/pagestore/pagestore.go:629-736 | the invariant holds at every moment of every run |
| CrashSafety.EveryCrashRecovers | internal/pagestore/pagestore.go:629-736 | at every moment of every run, every image a crash can leave opens as the last committed generation or the one whose page 0 was already written |
| CrashSafety.RecoveryIsStable | internal/pagestore/pagestore.go:281-287 | once one generation is settled, no run without a new commit changes what a crash recovers, whatever reusable pages are overwritten |
| CrashSafety.TwoMeansAnnounced | internal/pagestore/pagestore.go:711-716 | a crash can recover a second generation only once page 0 has been written with it |
| CrashSafety.CopyOnWriteLosesNothing | internal/pagestore/faults_test.go:446-458 | if only pages the checkpoint does not reference are written, every page it references survives any crash byte for byte |
| CrashSafety.InPlaceWriteShowsThrough | internal/pagestore/pagestore.go:513-525 | and if one referenced page is rewritten in place, some crash brings back the checkpoint with the new bytes on that page, the old ones gone |
| PageFile.TornMayBeWritten | internal/pagestore/faults_test.go:446-458 | part of a harmless page write is as harmless as all of it, page 0 excepted |
| PageFile.File.WriteAt | internal/page/page.go:133-139 | one protocol step and one recorded outcome; after an error nothing has landed, or the page up to some byte over what was there, of page 0 all or nothing |
| PageFile.File.Grow | internal/page/page.go:143-163 | extends with zeros and no further than asked, changes nothing below where it starts, and no generation at any moment of the call |
| PageFile.File.Sync | internal/pagestore/memfile_test.go:73-88 | success brings every waiting write to the platter; failure brings those of some subset, page by page the last one kept, and marks everything clean; the outcome is recorded |
| PageFile.File.RestartEvicting | internal/pagestore/memfile_test.go:111-135 | each dropped clean page reads from the platter, every other page as before |
| PageFile.File.PowerLoss | internal/pagestore/memfile_test.go:137-144 | the kept writes and no others reach the platter, page by page the last one kept; reads show the platter |
| LiveState.GrowTo | internal/pagestore/pagestore.go:424-430 | sixteen pages more, or as far as the page limit; nothing more only at that limit |
| LiveState.AccountedMeans | internal/pagestore/pagestore.go:826-857 | the books balance exactly if every page handed out is in use and on no list, or on one list once and marked as such |
| LiveState.ReopenedIsAccounted | internal/pagestore/pagestore.go:261-279 | the books built from an accepted checkpoint balance |
| LiveState.TakeFreeIsAccounted | internal/pagestore/pagestore.go:536-540 | taking the last free page adds exactly that page to those in use |
| LiveState.TakeFreshIsAccounted | internal/pagestore/pagestore.go:541-557 | handing out the next new page adds exactly that page |
| LiveState.ReleaseIsAccounted | internal/pagestore/pagestore.go:579-603 | freeing a page removes exactly that page and keeps the books balanced |
| LiveState.FreeIsExpendable | internal/pagestore/pagestore.go:536-540 | every reusable page is one the durable checkpoint can do without |
| LiveState.FreshIsExpendable | internal/pagestore/pagestore.go:541-557 | and so is every page never handed out |
| LiveState.WriteKeepsLinked | internal/pagestore/pagestore.go:513-525 | a page write leaves books and checkpoint linked, and the checkpoint untouched if the page is expendable |
| CheckpointPlan.PopFreeIsOk | internal/pagestore/pagestore.go:642-645 | the pages taken for the list are exactly those missing from the free list and those newly handed out |
| CheckpointPlan.HandOutIsOk | internal/pagestore/pagestore.go:646-661 | likewise when the free list is used up |
| CheckpointPlan.OneMoreFits | internal/pagestore/pagestore.go:638-664 | the sizing loop never overshoots: at most one surplus page, and only when the entries fill the others exactly |
| CheckpointPlan.EnoughLeft | internal/pagestore/pagestore.go:638-664 | a sized list means there were pages enough, counting those still reusable and those never handed out |
| CheckpointPlan.FullIsRunsOut | internal/pagestore/pagestore.go:646-649 | and where the loop gives up there were not |
| CheckpointPlan.ChunkStartsInBounds | internal/pagestore/pagestore.go:678-686 | every slice of the entries the layout loop takes is in bounds |
| CheckpointPlan.LaidOutIsChain | internal/pagestore/pagestore.go:666-691 | the list pages written spell exactly the new entries, in order |
| CheckpointPlan.EntriesAreFree | internal/pagestore/pagestore.go:666-669 | the new entries are the pages out of use less those carrying the list, each once |
| CheckpointPlan.ReferencedAfter | internal/pagestore/pagestore.go:666-711 | the new checkpoint references the pages in use and the list pages, none leaked and none lost |
| CheckpointPlan.NewGenerationIsOk | internal/pagestore/pagestore.go:638-711 | what the checkpoint writes is a checkpoint load accepts |
| CheckpointPlan.CheckpointKeepsPages | internal/pagestore/pagestore.go:713-731 | the pages in use are the same before and after |
| CheckpointPlan.InTurnIsCarried | internal/pagestore/pagestore.go:638-711 | a checkpoint takes the fewest pages that can carry its list, the reusable ones from the last one freed on, then new ones in order; the other pages make up the new free list, in a fixed order |
| CheckpointPlan.ReusableFirst | internal/pagestore/lifecycle_test.go:109-135 | a page never handed out carries the list only if every reusable one does; where those suffice, neither the high-water mark nor the file grows |
| CheckpointPlan.LastFreedIsFirst | internal/pagestore/pagestore_test.go:232-255 | after a checkpoint the pages just freed are handed out first, the last one freed before the others, then what was reusable before, then the old list pages |
| CheckpointPlan.PagesForMeans | internal/pagestore/pagestore.go:420-422 | a list takes one page for every started group of 1019 entries |
| StoreWrites.OwnedMayBeWritten | internal/pagestore/pagestore.go:513-525 | writing an owned page is a step the protocol allows |
| StoreWrites.OwnedWrite | internal/pagestore/pagestore.go:513-525 | whatever lands of it, writing an owned page leaves the books, the checkpoint a crash recovers, and every other page in use as they were |
| StoreWrites.WriteTaken | internal/pagestore/pagestore.go:559-570 | the write of a page just taken changes at no moment what a crash recovers, and no other page in use; a failure leaves the books as they were |
| Checkpointing.TakeListPages | internal/pagestore/pagestore.go:634-664 | the loop ends with a plan that fits and has taken the fewest pages, reusable ones first; at no moment has a page in use or a generation changed; an I/O error exactly if a call failed, and the pages run out only where those left cannot carry the list, and there it never succeeds |
| Checkpointing.BuildListPage | internal/pagestore/pagestore.go:671-687 | the page filled field by field is the encoded list page |
| Checkpointing.WriteListPage | internal/pagestore/pagestore.go:671-691 | the page lands encoded, or in part on a page nobody needs |
| Checkpointing.WriteListPages | internal/pagestore/pagestore.go:671-691 | every list page lands; pages in use and both generations are untouched at every moment, also when it fails |
| Checkpointing.LayOutList | internal/pagestore/pagestore.go:634-696 | the new free list, on the pages whose turn it is, reaches the platter; only the fsync after it can fail fatally, and until then nothing a crash recovers has changed; whether the pages run out is decided by the books alone |
| Checkpointing.CommitMeta | internal/pagestore/pagestore.go:711-716 | after the write and the fsync of page 0 the new generation is the only one; if either fails it is the old one and possibly the new one, and nothing else |
| Checkpointing.Announce | internal/pagestore/pagestore.go:697-716 | the same of the whole new checkpoint: live root, next number, and the pages in use with the bytes they had |
| Checkpointing.NewGenMayCommit | internal/pagestore/pagestore.go:697-713 | before page 0 is written, all the new generation vouches for is on the platter |
| Checkpointing.VouchedPages | internal/pagestore/pagestore.go:629-716 | the new checkpoint vouches for its list pages and for every page in use that the platter holds as reads show it |
| Checkpointing.CommitAll | internal/pagestore/pagestore.go:629-736 | the five steps in order; fatal exactly when an fsync or the write of page 0 failed; at every moment a crash recovers the old generation or the complete new one; any other failure leaves generation, books and pages in use alone; what is left for reuse, and in which order, follows from the books alone |
| Checkpointing.FirstSync | internal/pagestore/pagestore.go:630-632 | the first fsync: all written pages are durable, or nobody knows which; the checkpoint is the old one either way |
| Opening.ReadFreeListPages | internal/pagestore/pagestore.go:354-395 | the loop halts on any bytes, looping chains included, and finds what the walk by recursion finds, unless a read failed |
| Opening.CheckFreeSet | internal/pagestore/pagestore.go:397-418 | accepts exactly the free lists of distinct handed-out pages clear of root and list pages |
| Opening.Record | internal/pagestore/pagestore.go:826-841 | accepts exactly the lists whose pages are in range, listed once and marked as they should be |
| Opening.AllSeen | internal/pagestore/pagestore.go:851-857 | comparing counts first decides whether every marked page is on some list |
| Opening.VerifyLive | internal/pagestore/pagestore.go:799-870 | accepts exactly the balanced books that agree with the free list on disk |
| Opening.LiveAgreesMeans | internal/pagestore/pagestore.go:799-870 | those books by counting: they balance, have not gone backwards, fit the file, and call reusable only what the list on disk has |
| Opening.ReopenedAgrees | internal/pagestore/pagestore.go:277-279 | this second check never fails once the first ones have passed |
| Opening.ReadMeta | internal/pagestore/pagestore.go:237-244 | decodes page 0, or the read failed |
| Opening.CheckFile | internal/pagestore/pagestore.go:245-260 | the checks after that, with the verdict they have on the image, or a read failed |
| Opening.Inspect | internal/pagestore/pagestore.go:237-260 | reads and checks without writing; its verdict is what the image recovers to, and nothing but a failed read keeps it from that |
| Opening.IsBlankFile | internal/pagestore/pagestore.go:192-217 | whether there are zeros only, and no more than the first chunk of them; an error exactly if a read failed |
| Opening.FoundGeneration | internal/pagestore/pagestore.go:237-260 | what an open reads is one of the two generations the disk may hold |
| Opening.SettleMeta | internal/pagestore/pagestore.go:281-287 | rewriting and fsyncing page 0 makes the generation seen in the cache the one on the platter, and the only one; until then, and if it fails, both generations stay what they were, and reads differ on page 0 at most |
| Opening.BlankIsSpare | internal/pagestore/pagestore.go:168-176 | a blank file is one whose creation has not committed, so creating it again loses nothing |
| Opening.SettledIsBack | internal/pagestore/pagestore.go:281-287 | once one generation is settled, every page it vouches for reads back and is on the platter |
| PageStore.Store.SetRoot | internal/pagestore/pagestore.go:489-501 | succeeds exactly on an owned page or none; otherwise changes nothing and says which guard failed |
| PageStore.Store.Read | internal/pagestore/pagestore.go:503-511 | an owned page reads as the cache has it; any other read fails, with the kind of error, an I/O error exactly if the call to the file failed |
| PageStore.Store.Write | internal/pagestore/pagestore.go:513-525 | writes one owned page; after an I/O error part of it may have landed; every other page in use and the checkpoint a crash recovers stay, except that it stops vouching for that one page; the kind of every error |
| PageStore.Store.TakePage | internal/pagestore/pagestore.go:532-557 | takes the last freed page, else the next new one of a file grown if need be; refuses exactly when there is none, before touching the file |
| PageStore.Store.Allocate | internal/pagestore/pagestore.go:527-577 | hands out a page nobody owned, last freed first, zeroed; refuses for want of pages exactly at the limit; fails by I/O exactly if a call to the file did; a failure leaves every field as it was; no page in use and at no moment the checkpoint is touched |
| PageStore.Store.Free | internal/pagestore/pagestore.go:579-603 | succeeds exactly on an owned page that is not the root, which is then the last one pending and not reusable; each of the five errors exactly when |
| PageStore.Store.Sync | internal/pagestore/pagestore.go:605-613 | poisons the store exactly if the fsync fails, for good; a crash recovers the same checkpoint as before either way |
| PageStore.Store.Commit | internal/pagestore/pagestore.go:629-736 | the books after a commit are what opening the new checkpoint would bring back, with reusable pages and high-water mark fixed by the books before; a failure leaves every field as it was, the old checkpoint, and beside it only the new one, complete, if page 0 was written; the error for want of pages exactly as the books decide |
| PageStore.Store.Adopt | internal/pagestore/pagestore.go:718-731 | the books become those that opening the committed checkpoint would bring back |
| PageStore.Store.Checkpoint | internal/pagestore/pagestore.go:615-627 | poisoned exactly by a failed fsync or page-0 write, and then a crash recovers the old checkpoint or the complete new one; any other failure is as if it had not been called: fields, generation and the bytes of every page in use are as before; on success page 0 and the list pages are on the platter byte for byte, the list pages are the fewest possible and reusable pages carry the list before new ones; only I/O calls that failed and a want of pages keep it from succeeding |
| PageStore.Store.Close | internal/pagestore/pagestore.go:738-755 | commits what is dirty, with the outcomes of a checkpoint; a poisoned store closes without touching the file, reporting why it was poisoned; any other error needs a failed call or a want of pages |
| PageStore.Store.Discard | internal/pagestore/pagestore.go:757-763 | closes without a checkpoint, the books unchanged; an error exactly if closing the file failed |
| PageStore.Store.Verify | internal/pagestore/pagestore.go:765-797 | on any books and any file, unless a read fails: passes exactly if the file opens as the checkpoint the store believes in and the books agree with it, otherwise the error of page 0 or corrupt; in a store that only its own calls have changed it always passes |
| PageStore.Load | internal/pagestore/pagestore.go:237-288 | a rejected file is not written to, and the error is the one the failing check has; an I/O error exactly if a call to the file failed; an accepted one comes back as a store on exactly the checkpoint read, with every page it vouches for readable and on the platter; page 0 is written again in full and every other page stays as it was; a failure leaves what a crash recovers |
| PageStore.Create | internal/pagestore/pagestore.go:219-235 | lays out and commits an empty store, at checkpoint 1, sixteen pages long, on the platter, its page 0 byte for byte; it fails exactly if a call to the file did, and at every moment a crash leaves a blank file or the new store |
| PageStore.OpenFile | internal/pagestore/pagestore.go:168-190 | the same of any file, a blank one becoming an empty store; with no call to the file failing it opens exactly the blank files and those that pass the checks; opening fails only by I/O on any file this code has written, at whatever moment it was cut short, and its own crashes leave what there was |
| PageStore.ReadyReads | internal/pagestore/pagestore.go:765-797 | what a usable store reads back is its own checkpoint, and the books agree with it |
| StoreCrashes.CrashInsideCheckpoint | internal/pagestore/faults_test.go:1037-1057 | at every moment of a checkpoint, a crash brings back the old checkpoint or the new one, complete |
| StoreCrashes.CrashInsideCall | internal/pagestore/faults_test.go:1010-1035 | at every moment of any other call, a crash brings back the old checkpoint |
| StoreCrashes.StoreSurvives | internal/pagestore/oracle_test.go:718-733 | between calls, every crash brings an unpoisoned store back at its last checkpoint, and a poisoned one there or at the one whose commit failed, with every page that checkpoint vouches for |
| StoreCrashes.CrashAndReopen | internal/pagestore/oracle_test.go:1279-1331 | a crash and an open: fails exactly if a call to the file did, and returns that checkpoint as the only one left, its pages readable and on the platter, so that the next crash finds them too |
| StoreOracle.CopyStays | internal/pagestore/oracle_test.go:355-421 | between two commits, through any crashes and reopenings, the copy a crash goes back to stays what it is, but for pages rewritten in place |
| StoreOracle.StaysSound | internal/pagestore/oracle_test.go:423-486 | only pages in use have certain bytes, and a store in use has one copy to go back to |
| StoreOracle.WrittenStays | internal/pagestore/oracle_test.go:423-486 | what was written reads back until the page is rewritten or freed or the store reopened |
| StoreOracle.WrittenReadsBack | internal/pagestore/lifecycle_test.go:181-234 | write, checkpoint, any number of crashes and reopenings, read: what was written |
| StoreRuns.DoSetRoot | internal/pagestore/oracle_test.go:660-677 | the call does what the oracle says, on every outcome |
| StoreRuns.DoFree | internal/pagestore/oracle_test.go:574-602 | likewise; the copy keeps the page |
| StoreRuns.DoRead | internal/pagestore/oracle_test.go:423-486 | likewise; a page whose bytes are certain reads as those bytes |
| StoreRuns.DoWrite | internal/pagestore/oracle_test.go:558-572 | likewise; an I/O error makes that page uncertain and no other |
| StoreRuns.DoAllocate | internal/pagestore/oracle_test.go:516-556 | likewise; the page is in use neither now nor in the copy |
| StoreRuns.DoSync | internal/pagestore/oracle_test.go:899-917 | likewise; a failure stops the store and leaves the copy |
| StoreRuns.DoCheckpoint | internal/pagestore/oracle_test.go:679-687 | likewise; success makes the live state the copy, a fatal failure makes it the one a crash may bring back instead |
| StoreRuns.DoClose | internal/pagestore/oracle_test.go:689-716 | likewise, and what was committed already is the live state |
| StoreRuns.Reopen | internal/pagestore/oracle_test.go:718-769 | after any crash the store comes back as the copy, or as the checkpoint that failed for good |
| StoreRuns.Run | internal/pagestore/oracle_test.go:989-1037 | any calls, failures, crashes and reopenings in any order have the outcomes of some run of the oracle |
| ByteOrder.LessMeans | internal/btree/btree.go:91-101 | keys are in the order of bytes.Compare: a proper prefix before its extensions, otherwise the first byte that differs decides |
| SortedEntries.MapOfPut | internal/btree/btree.go:118-129 | replacing or inserting in a sorted sequence is the map update |
| SortedEntries.MapOfRemove | internal/btree/delete.go:20-33 | removing from it is the map removal |
| BTreeModel.LeafIndex | internal/btree/btree.go:97-101 | the keys before the position are below, the one at it is not |
| BTreeModel.ChildIndex | internal/btree/btree.go:91-95 | the keys before the position are not above, the one at it is |
| BTreeInvariant.InsertWF | internal/btree/btree.go:131-194 | insertion with any splits keeps order, bounds, depth and fill, for every order |
| BTreeInvariant.RepairWF | internal/btree/delete.go:55-129 | borrowing from either side or merging makes the short child's parent well formed again |
| BTreeInvariant.DeleteWF | internal/btree/delete.go:35-53 | deletion with any cascade leaves a well-formed subtree, its top at most one key short |
| BTreeInvariant.PutKeepsWhole | internal/btree/btree.go:118-129 | a whole tree stays whole, and grows a level only by splitting its root |
| BTreeInvariant.DeleteKeepsWhole | internal/btree/delete.go:20-33 | a whole tree stays whole after one collapse at most |
| BTreeShape.LeafHalves | internal/btree/btree.go:173-183 | a leaf splits in the middle, nothing lost or moved, the separator a copy of the first key on the right |
| BTreeShape.NodeHalves | internal/btree/btree.go:185-194 | an inner node splits in the middle, its middle key taken out as the separator |
| BTreeShape.SplitsIfFull | internal/btree/btree.go:131-171 | a subtree splits exactly if the key is new and every node on the way to it is full |
| BTreeShape.EnoughIsLeft | internal/btree/delete.go:46-52 | a child that has kept enough keys is the only thing that changes in its parent |
| BTreeShape.RepairMeans | internal/btree/delete.go:55-129 | a short child borrows one key from its left sibling if that can spare one, else one from the right, else is merged, with the left if there is one; the two hold between them what they did, and the parent's other children and separators stay |
| BTreeContents.FlatIsSorted | internal/btree/btree.go:314-372 | the entries of a well-formed tree, left to right, are sorted and within its bounds |
| BTreeContents.GetFinds | internal/btree/btree.go:103-116 | descending by separators finds what a search through all entries would |
| BTreeContents.InsertFlat | internal/btree/btree.go:131-194 | insertion changes the entries, left to right, as a sorted insertion would; splits change nothing |
| BTreeContents.RepairFlat | internal/btree/delete.go:55-129 | borrows and merges lose, repeat and reorder no entry |
| BTreeContents.DeleteFlat | internal/btree/delete.go:35-53 | deletion removes exactly the key, and reports whether it was there |
| BTreeMap.GetIsLookup | internal/btree/btree.go:103-116 | Get is map lookup |
| BTreeMap.PutIsUpdate | internal/btree/btree.go:118-129 | Put is map update |
| BTreeMap.DeleteIsRemoval | internal/btree/delete.go:20-33 | Delete is map removal, and true exactly for keys present |
| BTreeMap.RunRefinesMap | internal/btree/btree.go:103-194 | after any sequence of insertions and deletions the tree holds, counts and finds what a map given the same operations does |
| BTreeMap.SubtreeCount | internal/btree/btree.go:41-51 | a subtree of height h holds between half full and full at every level |
| BTreeMap.WholeCount | internal/btree/btree.go:73-83 | height and number of entries bound each other |
| LinkedNodes.Node.ChildIndex | internal/btree/btree.go:91-95 | binary search on sorted keys finds the first key above |
| LinkedNodes.Node.LeafIndex | internal/btree/btree.go:97-101 | binary search on sorted keys finds the first key not below |
| LinkedNodes.OwnsAppend | internal/btree/btree.go:173-183 | a row of subtrees is owned, disjoint and chained exactly if both halves are and the chain runs across the cut |
| NodeInsertion.SplitLeaf | internal/btree/btree.go:173-183 | the node objects after the split are the two halves, the new right one linked in behind the left |
| NodeInsertion.SplitInternal | internal/btree/btree.go:185-194 | likewise for inner nodes, whose middle key moves up; the leaf chain below is unbroken |
| NodeInsertion.InsertIntoLeaf | internal/btree/btree.go:132-151 | replaces, inserts or splits in place as the model does, and counts new keys only |
| NodeInsertion.TakeUp | internal/btree/btree.go:155-170 | a child's split is taken up in place, splitting in turn on overflow |
| NodeInsertion.Insert | internal/btree/btree.go:131-171 | the nodes after the recursive insertion own exactly the model's result, first leaf and tail of the chain as before |
| NodeDeletion.BorrowFromLeft | internal/btree/delete.go:74-93 | rewrites the two siblings and the separator in place as the model does, chain intact, no node added |
| NodeDeletion.BorrowFromRight | internal/btree/delete.go:95-112 | likewise from the right |
| NodeDeletion.Merge | internal/btree/delete.go:114-129 | the left node takes over, the right one drops out of its parent and of the leaf chain |
| NodeDeletion.Repair | internal/btree/delete.go:55-72 | left sibling first, then right, then merge, as the model does |
| NodeDeletion.Delete | internal/btree/delete.go:35-53 | the nodes after the recursive deletion own exactly the model's result; if the key was not there nothing has changed |
| LeafChain.OwnedIsChained | internal/btree/btree.go:291-312 | owning a shape is holding what it says plus a leaf chain that visits the leaves once each, in order |
| LeafChain.LeavesHoldAll | internal/btree/btree.go:281-289 | the leaves, left to right, hold all entries |
| RangeScan.BetweenIsRange | internal/btree/btree.go:207-220 | the entries kept are exactly those with from <= key < to, in ascending order |
| RangeScan.UpToIsBetween | internal/btree/btree.go:233-254 | once what is below from is skipped, stopping at the first key not below to is enough |
| RangeScan.Iterator.Next | internal/btree/btree.go:233-254 | yields the next pending entry, skipping exhausted leaves, and stays exhausted at the end |
| RangeScan.Iterator.Close | internal/btree/btree.go:262-266 | nothing is pending afterwards |
| Descent.Descend | internal/btree/btree.go:103-111 | the leaf reached has every entry to its left below the key and every one to its right above |
| Descent.ScanStart | internal/btree/btree.go:207-220 | from its position in that leaf the scan has exactly the range ahead |
| TreeCheck.Check | internal/btree/btree.go:314-372 | halts on any nodes, shared ones and circles of children included, and passes exactly if the node is the top of a well-formed subtree whose leaves are level with those before it |
| TreeCheck.CheckChildren | internal/btree/btree.go:358-370 | likewise for the children of a node; one that has been passed on the way down already fails below its first child |
| TreeCheck.LessRoom | internal/btree/btree.go:358-370 | why it halts: bounds tighten, so below itself a node fails them, or leaves no key to its first child |
| TreeCheck.CollectLeaves | internal/btree/btree.go:281-289 | collects the leaves in tree order, a shared one each time it is met |
| TreeCheck.WalkChain | internal/btree/btree.go:291-312 | halts on any links, circular ones included, and accepts exactly the chain of the leaves |
| TreeCheck.WellFormedIsTree | internal/btree/btree.go:314-372 | nodes that pass the order and bounds checks are all distinct: sharing one under two parents breaks a bound |
| TreeCheck.Validate | internal/btree/btree.go:270-279 | on any nodes at all, with any next links, halts and accepts exactly if they form a well-formed tree with an unbroken chain |
| BTree.Tree.Zero | internal/btree/btree.go:32-39 | the zero value is a valid empty map |
| BTree.Tree.New | internal/btree/btree.go:41-51 | refuses exactly the orders below 3 |
| BTree.Tree.Ensure | internal/btree/btree.go:53-62 | the zero tree becomes one of order 64, the map unchanged |
| BTree.Tree.Len | internal/btree/btree.go:71-71 | the size of the map |
| BTree.Tree.Height | internal/btree/btree.go:73-83 | bounded above and below by the logarithms of the size |
| BTree.Tree.Get | internal/btree/btree.go:103-116 | map lookup |
| BTree.Tree.Put | internal/btree/btree.go:118-129 | map update, at most one level more, invariants kept |
| BTree.Tree.Delete | internal/btree/delete.go:20-33 | map removal, true exactly for keys present, at most one level less |
| BTree.DeleteBelowRoot | internal/btree/delete.go:20-33 | the loop that replaces an empty root runs at most once |
| BTree.Tree.Scan | internal/btree/btree.go:207-220 | an iterator with exactly the entries of the range pending, none on a tree without a root |
| BTree.Tree.Validate | internal/btree/btree.go:270-279 | accepts every tree the operations can build |
| Tiling.TilesAreDisjoint | internal/nodepage/nodepage.go:250-264 | in a tiling no byte belongs to two spans |
| Tiling.TilesTotal | internal/nodepage/nodepage.go:250-264 | the lengths of the spans of a tiling add up to its range |
| Tiling.AdjoiningIsTiling | internal/nodepage/nodepage.go:250-264 | spans sorted by start tile a range exactly if each begins where the one before ends |
| Tiling.TilesMeans | internal/nodepage/nodepage.go:250-264 | and that is: spans inside the range, pairwise apart, leaving nothing of it out |
| Tiling.CoversOfPermutation | internal/nodepage/nodepage.go:250-250 | sorting does not change which bytes are covered |
| SlottedPage.LaidIsDisjoint | internal/nodepage/nodepage.go:235-264 | on a sound page the cells are disjoint and cover exactly the bytes from the free end on |
| SlottedPage.AppendedIsLaid | internal/nodepage/nodepage.go:138-155 | appending a cell keeps the page sound |
| SlottedPage.AppendedKeeps | internal/nodepage/nodepage.go:138-155 | later appends touch no earlier cell |
| SlottedPage.AppendedIsValid | internal/nodepage/nodepage.go:204-273 | a non-empty key above the last one keeps Validate passing |
| SlottedPage.AppendedIsInvalid | internal/nodepage/nodepage.go:204-273 | any other key, which appending does not refuse, makes it fail |
| SlottedPage.EqualKeysFill | internal/nodepage/nodepage.go:190-200 | with keys of one length another entry fits exactly while there are fewer than MaxKeys |
| NodeBytes.NewNodeBytes | internal/nodepage/nodepage.go:39-66 | a new leaf and a new internal page byte by byte |
| NodeBytes.TailBytes | internal/nodepage/nodepage_test.go:201-238 | the suffix of a cell: page and slot of the row, or the child, high byte first |
| NodeBytes.AppendedMeans | internal/nodepage/nodepage_test.go:201-248 | what appending writes, byte by byte: the cell right below the others, its slot behind the other slots, three fields of the header, and nothing else |
| NodeBytes.ValidMeans | internal/nodepage/nodepage.go:204-273 | the pages Validate accepts, told by their bytes: header in order, cells inside the space past the free end, apart from each other and leaving none of it out, each with a key, keys ascending |
| NodeBytes.ReadMeaning | internal/nodepage/nodepage.go:56-136 | from which bytes id, link, level, keys, rows and children are read |
| NodePage.Node.NewLeafPage | internal/nodepage/nodepage.go:39-43 | a new leaf is valid and empty |
| NodePage.Node.NewInternalPage | internal/nodepage/nodepage.go:45-54 | refuses exactly level 0, else valid and empty |
| NodePage.Node.SetLink | internal/nodepage/nodepage.go:82-85 | the link is set, every other byte stays, and a valid page stays valid with its keys |
| NodePage.Node.AppendCell | internal/nodepage/nodepage.go:138-155 | the buffer after the in-place writes, on any page on which they do not run past the end, sound or not, the suffix cut short where it would; unchanged when the cell does not fit |
| NodePage.Node.AppendLeaf | internal/nodepage/nodepage.go:157-165 | a new entry on a page laid out soundly: the keys and rows are those before and the new ones; on a valid page Validate still passes exactly if the key follows; each error exactly when |
| NodePage.Node.AppendInternal | internal/nodepage/nodepage.go:167-174 | likewise for keys and children |
| NodePage.Node.Search | internal/nodepage/nodepage.go:176-183 | the position of the tree's leafIndex on the decoded keys |
| NodePage.Node.ChildFor | internal/nodepage/nodepage.go:185-188 | the child of the tree's childIndex on the decoded keys |
| NodePage.Node.Validate | internal/nodepage/nodepage.go:204-273 | on any 4096 bytes reads within bounds, and accepts exactly sound pages with their keys in order |
| PageBuild.FillLeaf | internal/nodepage/nodepage_test.go:25-51 | entries appended to a leaf until refusal read back as given, keys and rows, on top of what was there; strictly increasing non-empty keys keep it valid; an empty page takes exactly MaxKeys keys of one length |
| PageBuild.FillInternal | internal/nodepage/nodepage_test.go:53-81 | likewise for the keys and children of internal pages |
| PageBuild.TakenIsMaxKeys | internal/nodepage/nodepage.go:190-200 | on an empty page of either kind, keys of one length are taken up to exactly MaxKeys |
| Varint.AppendUvarint | internal/codec/varint.go:12-18 | appends the canonical encoding |
| Varint.Uvarint | internal/codec/varint.go:20-35 | reads the number the leading bytes spell, with the two errors exactly where they belong |
| Varint.UvarintLen | internal/codec/varint.go:37-44 | the length of the encoding |
| Varint.EncodedLength | internal/codec/varint.go:37-44 | one byte for every started group of seven bits |
| Varint.EncodedDigit | internal/codec/varint.go:12-18 | byte j carries the j-th group of seven bits, and the top bit on all but the last |
| Varint.ReadMeans | internal/codec/varint.go:20-35 | a number is read exactly if at most ten bytes are there, the first without the top bit the last of them, and no more than 64 bits |
| Varint.SpelledSum | internal/codec/varint.go:20-35 | and it is the sum of the groups, each worth 128 times the one before |
| Varint.EncodedCut | internal/codec/codec_test.go:78-88 | a number cut off anywhere reads as truncated |
| Varint.AtMostTen | internal/codec/varint.go:5-5 | at most ten bytes, the tenth at most 1 |
| Varint.UvarintRoundTrip | internal/codec/varint.go:12-35 | what was encoded is read back, whatever follows it |
| Varint.RereadIsCanonical | internal/codec/varint.go:20-35 | reading consumes at most ten bytes, and re-encoding gives them back exactly unless they were padded; each error exactly when |
| Varint.ZigZagIsBijection | internal/codec/varint.go:46-48 | signed and unsigned 64-bit values correspond one to one, small magnitudes to small codes |
| Varint.VarintRoundTrip | internal/codec/varint.go:50-58 | signed values are read back |
| Framing.AppendBytes | internal/codec/value.go:41-44 | appends one frame |
| Framing.BytesRef | internal/codec/value.go:46-59 | reads one frame, or fails without reading past the end |
| Framing.FrameRoundTrip | internal/codec/value.go:41-59 | a frame is read back, whatever follows it |
| Framing.FrameCut | internal/codec/codec_test.go:78-84 | a frame cut off anywhere, in its header or after it, reads as truncated |
| Framing.FrameMeans | internal/codec/value.go:46-59 | a frame is read exactly if its header spells how many bytes follow it and all of them are there |
| Framing.FrameFails | internal/codec/value.go:46-59 | and of the two errors it is overflow exactly if the header has more than 64 bits |
| Framing.StreamRoundTrip | internal/codec/value.go:41-69 | any sequence of items, framed one after the other, parses back to the same items |
| Framing.StreamCut | internal/codec/codec_test.go:78-84 | a stream of items cut off anywhere breaks as truncated |
| KeyOrder.BigEndianDigit | internal/codec/key.go:10-12 | byte i is the digit of its place to the base 256, highest first |
| KeyOrder.UintOrder | internal/codec/key.go:10-12 | bytes compare as unsigned numbers do |
| KeyOrder.UintRoundTrip | internal/codec/key.go:14-19 | decoding inverts encoding |
| KeyOrder.IntOrder | internal/codec/key.go:21-23 | bytes compare as signed numbers do |
| KeyOrder.IntRoundTrip | internal/codec/key.go:25-30 | decoding inverts encoding |
| KeyOrder.AnyEightBytes | internal/codec/key.go:14-59 | any eight bytes are the key of the number read from them, and fewer are truncated |
| KeyOrder.MagnitudeOrder | internal/codec/key.go:32-46 | bit patterns of one sign are in the order of the numbers they stand for, exactly computed |
| KeyOrder.MagnitudeMeans | internal/codec/key.go:32-46 | those numbers: one more in the exponent doubles, small patterns are their own magnitude |
| KeyOrder.FloatOrder | internal/codec/key.go:32-46 | bytes compare as the floats do, -0 alike +0, all NaNs one key above +Inf |
| KeyOrder.FloatRoundTrip | internal/codec/key.go:48-59 | decoding inverts encoding for every float but -0, which comes back as 0, and the NaNs, which all come back as one |
| KeyOrder.FloatKeyMeans | internal/codec/key.go:32-46 | the bytes of every float's key: the bits with the sign bit set, or all of them flipped; one key for both zeros and one for all NaNs, spelled out |
| KeyOrder.AnyFloatBytes | internal/codec/key.go:48-59 | any eight bytes read as the float whose bits give them back that way |
| KeyOrder.LessBeforeSuffix | internal/codec/key.go:10-12 | in composite keys what follows a fixed-length key decides only between equal ones |

## Left out

- PageStore.OpenFile: a file is a whole number of pages; a tail shorter than a page, and the errors for files shorter
  than one, are not modelled.
- Opening.IsBlankFile: likewise, the zeros of a tail shorter than a page.
- PageFile.File: a run starts from a file whose cache and platter agree. Divergence arises within runs, which go on
  across restarts.
- PageFile.File.Grow: writes zeros one page at a time where the source writes up to 256 in one call, so it may be cut
  short at more points than the source.
- The path half of Create and Open, symbolic links, fsync of the parent directory, closing files: operating-system
  calls.
- StoreRuns.Run: the process dies between calls. A crash inside a call is `StoreCrashes.CrashInsideCall` and
  `StoreCrashes.CrashInsideCheckpoint`. Files that opening rejects are not runs; `PageStore.Load` leaves them alone.
- The statistics counters of the store and the tree, and the accessors that copy slices out.
- Page buffers passed in and out of the store are values; Go's sharing of the backing array is not modelled, there or
  for key slices in nodes.
- RangeScan.Iterator.Next: says nothing about an iterator used after its tree has changed.
- TreeCheck.Validate: a separator that is a nil slice, which the source takes for no bound. No operation stores one, and
  the model has none; only there can a circle of children keep the source from halting.
- Tiling.SortByStart: stands for sort.Slice, of which only the sorted permutation is used.
- Varint.Uvarint: bits joined with `|` are disjoint and are added; words are integers below 2^64 with the shifts
  written as multiplication and division.
- NodePage.Node.AppendCell: pages on which the source slices out of range, because the suffix of a cell that fits by the
  header, or its slot, would start past the page, are outside its contract. AppendLeaf and AppendInternal likewise.
- NodePage.Node.Validate: Load and its size check are left out; the buffer is 4096 bytes long.
- Booleans, plain floats and strings in the codec, Page.Append, LeafFill and Separators: easy members.
- The naive text database, null bitmaps, slot tables, index interfaces, the demo, and all Describe and Dump output.
