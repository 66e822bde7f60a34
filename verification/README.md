# EuroOS in Dafny

A model of eight self-contained pieces of EuroOS, and proofs about them. Each piece is
written twice: as functions on values, about which the lemmas speak, and as the loops and
in-place updates of the source, each proved to compute its function.

| file | models | main results |
|---|---|---|
| `bigpool.dfy`, `percpu.dfy`, `heap.dfy` | `kernel/src/allocator.rs` | the skipping bitmap search finds the lowest fit; every block is in one place over every interleaving of cores; when a request fails, and which allocator serves it; every free reaches that one |
| `e1000.dfy` | `kernel/src/e1000.rs` | frames received are polled in order, none lost or doubled; after a run the frames sent are on the wire in order or still owned by the NIC, exactly when every send was safe |
| `europack.dfy` | `scripts/mkeuropack.py` | a built image passes its check and has every byte where the format puts it; the level-by-level root is the tree's top node; a passing image holds the packed files or yields a hash collision |
| `editor.dfy` | `kernel/src/editcore.rs` | every key is the matching operation on a flat string with one offset; changes are marked |
| `policy.dfy` | `kernel/src/apppolicy.rs` | what each entry of a policy grants or refuses; learning is sound, minimal and stable; what any text is read as, line by line; the text form carries a policy if and only if it is one of a stated kind; exactly when approve and launch put a proposal in force |
| `alsa.dfy` | `kernel/src/alsa.rs`, `kernel/src/hda.rs` | refining is a fixpoint; when it succeeds and what it hands back; exactly which of its changes the change mask reports; no frame is overwritten before the clock has passed it |
| `linker.dfy`, `linkimage.dfy` | `userland/ldeuro.c` | from the words of stack, program and library: linking sets the slot of every entry to its word and nothing else, in any order of the entries; exactly which words differ from the ABI's |
| `ahci.dfy` | `kernel/src/ahci.rs` | chunked transfers are plain byte-range transfers; every command decodes back to what was meant |

`common.dfy`, `bytes.dfy` and `strings.dfy` hold what the models share: words and their
bits as numbers, little-endian bytes, splitting, trimming and decimal numbers.

## How the outside is modelled

- The list heap answers each request with a fresh block of the asked size and alignment, or
  with nothing (`AnswersOk`). A small alloc or free is one step, as it runs with
  interrupts off on its own core's slot; there are at most eight cores.
- The NIC, the disk and the audio clock are step relations or parameters: a frame arrives,
  a descriptor is sent, a command completes or fails in any way on its own sectors, so many
  ticks have passed.
- Hashing, signing and verifying are function parameters. Nothing is assumed of the hash
  but its digest size; where the source relies on collision resistance, the lemma computes
  the collision instead. Signing is assumed to verify (`Signs`).
- The file system that stores policies is a map from file names to text.
- Process memory is a map from addresses to bytes; touching an address outside it is a fault.

## Where the code does not do what one would expect

Each of these is proved, together with the condition under which all is well; it is exact wherever
"if and only if" is written.

- A transmit with `NDESC - 1` descriptors unfinished makes TDT meet TDH: the NIC sees an empty
  ring and none of the frames leaves, however long the driver waits (`FullRingStalls`). Whatever is
  sent later, a ring's length of frames stays missing (`StaysBehind`). A send keeps the ring sound if
  and only if at most `NDESC - 2` are unfinished (`OfferKeeps`), and a run ends sound if and only if
  every send of it did (`SoundWhenCareful`). Timeouts get there (`TimeoutsFillTheRing`).
- The image check passes an image cut short inside a zero tail (`TruncatedImagePasses`);
  barring a collision an image holds its file exactly if and only if it is long enough
  (`HoldsExactlyWhenLongEnough`).
- An approved path with a comma reads back as two entries (`CommaSplitsEntry`). Approving and
  launching puts the proposal in force if and only if the program's name and every want can be
  written out (`ApprovedIsInForce`).
- A line break in an approved entry cuts its list's line short. When what is left of the line does
  not end like a list, the file cannot be read (`CutListUnreadable`, and one path in
  `BrokenPathUnreadable`), and outside a learning session the launched program has no policy: the
  gate answers for no path at all (`CutListLeavesNoPolicy`). When it does end like a list, the rest
  of the entry is read as lines of its own, and the policy in force can be another than the one
  approved (`TwoLinesReadBack`): `GrantsWhatWasRefused` is a session whose proposal refuses a path
  that is then granted. Without line breaks, and with a name that can be written out, the file is
  always readable as a policy for that program (`UnbrokenIsReadable`). When the
  program's name and every want can be written out, what is granted beyond the base policy lies
  under a recorded want (`GrantsOnlyWants`). After approve and launch the gate answers for the
  program if and only if the stored text reads back as a policy for it, or cannot be read while the
  program is being learned (`GatedWhenReadable`).
- A newline typed as a character would put a line break inside a line; every other key keeps the
  buffer's invariant, and that one never does (`StepKeepsInv`).
- Rounding the audio buffer to whole periods may take it below the client's minimum, exactly when
  the client's interval holds no multiple of the period (`SizesOk`); one such client is
  `BelowTheMinimum`. The committed sizes fit the ring if and only if it has 2048 frames
  (`RefineFitsTheRing`).
- A refine rewrites all eight words of a mask and the flags of every interval, and its change mask
  compares only the first word, or minimum and maximum. A set bit always means a change; a bit is
  right if and only if the compared part changed or the rest was already plain (`CmaskIsRight`).
  So a client that offers S16_LE and a format numbered 32 is not told that the second was removed
  (`UnreportedChanges`).
- The byte and time fields handed back to an audio client wrap at 32 bits: they are right if and only if the buffer
  or period is below 2^30 frames, and 1000000 times it below 2^32 (`RefineGives`).
- A paused stream stands still, but the clock runs on: resuming restores the stream as it was, so that the time
  paused counts as played (`PausedStandsStill`).
- A disk address of 2^48 or more acts as its low 48 bits (`WriteWraps`, `WriteAtTheLimit`). A
  successful write has sector i of the buffer on sector (lba + i) mod 2^48, so a range that passes
  2^48 goes on at sector 0 (`WriteGoes`); it is where it was meant to be if and only if its range
  ends by 2^48 (`LandsWhenAddressable`).
- The linker adds the addend to a GLOB_DAT slot, which section 4.4.1 of the System V ABI AMD64
  supplement defines as the symbol alone. An entry does what the ABI asks if and only if it is not
  a GLOB_DAT with a non-zero addend (`MeetsTheAbi`, and in the linked memory `LinksByTheAbi`);
  `AddendReachesTheSlot` is one that is not.

## Model

| member | source | states |
|---|---|---|
| `BigPools.FirstFitIsLowest` | kernel/src/allocator.rs:307-343 | the naive search answers None iff no start fits, and i iff i is the lowest start that fits |
| `BigPools.BigPool.Search` | kernel/src/allocator.rs:311-341 | the search that skips full words and jumps past taken pages finds what the naive search finds, for every bitmap |
| `BigPools.FullRunHasNoFit` | kernel/src/allocator.rs:317-320 | no start inside a full word fits, so skipping it passes over nothing |
| `BigPools.NoFitAcross` | kernel/src/allocator.rs:321-339 | no start up to a taken page fits when the run would meet it, so the jump passes over nothing |
| `BigPools.ChangeOnePage` | kernel/src/allocator.rs:330-332 | setting or clearing bit p % 64 of word p / 64 adds or removes exactly page p |
| `BigPools.AllocKeepsInv` | kernel/src/allocator.rs:307-343 | an alloc keeps: live runs disjoint and inside the pool, taken pages their union, `used` their number |
| `BigPools.FreeKeepsInv` | kernel/src/allocator.rs:345-355 | a matched free keeps the same and gives back exactly the block's pages |
| `BigPools.EveryRun` | kernel/src/allocator.rs:283-355 | over every run of matched allocs and frees after install the invariant holds, and `peak` is the highest `used` ever reached |
| `BigPools.AllocThenFree` | kernel/src/allocator.rs:307-355 | freeing what was just allocated restores taken pages, use count and live blocks |
| `BigPools.FreshPoolServes` | kernel/src/allocator.rs:283-343 | a pool just installed serves exactly the requests up to its pages, at most 131072, at its first page |
| `BigPools.PagesHold` | kernel/src/allocator.rs:308 | a block takes the fewest pages that hold its bytes |
| `BigPools.BigPool.constructor` | kernel/src/allocator.rs:271 | no pool yet: no pages, nothing taken |
| `BigPools.BigPool.Install` | kernel/src/allocator.rs:283-294 | the pool covers the given pages, cut to the bitmap, all free |
| `BigPools.BigPool.TakePage` | kernel/src/allocator.rs:330-332 | in place: one page becomes taken, no other page changes |
| `BigPools.BigPool.ReleasePage` | kernel/src/allocator.rs:345-355 | in place: one page becomes free, no other page changes |
| `BigPools.BigPool.MarkRun` | kernel/src/allocator.rs:330-332 | in place: exactly the pages of the run become taken |
| `BigPools.BigPool.Alloc` | kernel/src/allocator.rs:307-343 | in place: takes the lowest fitting run and updates `used` and `peak`, or changes nothing |
| `BigPools.BigPool.Free` | kernel/src/allocator.rs:345-355 | in place: clears exactly the block's pages |
| `SmallCaches.ClassIsTightest` | kernel/src/allocator.rs:77-83 | a layout has a class iff it is small and weakly aligned, and then it is the smallest class that holds it |
| `SmallCaches.CpuIndex` | kernel/src/allocator.rs:115-121 | the slot is in range, and a ready core below eight has its own |
| `SmallCaches.RefillKeeps` | kernel/src/allocator.rs:129-148 | a refill of any length, ended by any refusal, keeps the partition and touches no client's block |
| `SmallCaches.AllocKeeps` | kernel/src/allocator.rs:125-156 | an alloc on any core keeps each block in exactly one place and the list bounds; it fails iff list and heap are empty, then changing nothing |
| `SmallCaches.DropManyKeeps` | kernel/src/allocator.rs:167-178 | a flush keeps the partition and touches no client's block |
| `SmallCaches.FreeKeeps` | kernel/src/allocator.rs:160-179 | a free on any core, also another than the one that allocated, keeps the partition and every list at most HIGH_WATER, with the exact list length |
| `SmallCaches.AllocMoves` | kernel/src/allocator.rs:125-156 | an alloc hands out the first block of the core's list, or of all the heap grants of a batch when that is empty, and leaves the rest on it; no other list changes |
| `SmallCaches.AllocAsks` | kernel/src/allocator.rs:129-148 | the heap is asked only when the list is empty, and has out exactly what it granted |
| `SmallCaches.FreeMoves` | kernel/src/allocator.rs:160-179 | a freed block goes to the front of the core's list, unless that holds 64: then it and the 15 in front go back to the heap |
| `SmallCaches.Caches.constructor` | kernel/src/allocator.rs:96-98 | every list empty, nothing out |
| `SmallCaches.Caches.Push` | kernel/src/allocator.rs:164-166 | writing the link word into the block puts it in front of that one list; no other list changes |
| `SmallCaches.Caches.Pop` | kernel/src/allocator.rs:152-154 | following the head's link word takes the first block of that one list |
| `SmallCaches.Caches.Take` | kernel/src/allocator.rs:134-140 | one refill step: the heap's block goes to the front of that list |
| `SmallCaches.Caches.Give` | kernel/src/allocator.rs:152-155 | the first block of that list goes to the client |
| `SmallCaches.Caches.RefillBatch` | kernel/src/allocator.rs:129-148 | in place: the batch loop, ended by the first refusal, is the refill |
| `SmallCaches.Caches.SmallAlloc` | kernel/src/allocator.rs:125-156 | in place on the intrusive lists: the alloc step above |
| `SmallCaches.Caches.Stow` | kernel/src/allocator.rs:164-166 | the client's block goes to the front of that list |
| `SmallCaches.Caches.Return` | kernel/src/allocator.rs:171-174 | the first block of that list goes back to the heap |
| `SmallCaches.Caches.Flush` | kernel/src/allocator.rs:167-178 | gives n blocks back and never follows the link of an empty list |
| `SmallCaches.Caches.SmallFree` | kernel/src/allocator.rs:160-179 | in place on the intrusive lists: the free step above |
| `SmallCaches.Caches.ClientWrite` | kernel/src/allocator.rs:86-90 | whatever a client stores in its own block, no free list changes |
| `SmallCaches.Caches.CachedBytes` | kernel/src/allocator.rs:182-195 | the double loop gives the bytes the heap has out beyond those the clients hold |
| `SmallCaches.LargeAllocKeeps` | kernel/src/allocator.rs:238-241 | a block the heap serves directly keeps the partition |
| `SmallCaches.LargeFreeKeeps` | kernel/src/allocator.rs:253-256 | and so does giving it back |
| `SmallCaches.Caches.LargeAllocate` | kernel/src/allocator.rs:238-241 | in place: a block the heap serves directly |
| `SmallCaches.Caches.LargeDeallocate` | kernel/src/allocator.rs:254-256 | in place: and its return |
| `KernelHeaps.RouteFindsOrigin` | kernel/src/allocator.rs:243-256 | the route a free takes is the allocator that served the block, including blocks older than the pool and blocks served while it was full |
| `KernelHeaps.BlockIsBigEnough` | kernel/src/allocator.rs:228-241 | every live block is large and aligned enough for its layout |
| `KernelHeaps.BlocksDisjoint` | kernel/src/allocator.rs:228-256 | no two live blocks share a byte, whichever allocators served them |
| `KernelHeaps.HeapBlockNotOwned` | kernel/src/allocator.rs:302-305 | the address test of the pool never claims a block of the list heap |
| `KernelHeaps.PoolAddressAligned` | kernel/src/allocator.rs:228-233 | a page of the pool is aligned for every layout sent there |
| `KernelHeaps.ClassBlockAligned` | kernel/src/allocator.rs:77-83 | a class block is aligned for every layout of its class |
| `KernelHeaps.AllocFails` | kernel/src/allocator.rs:228-241 | a request fails iff the pool does not serve it, being under 131072 bytes, aligned over 4096 or without room, the list heap refuses, and the list of a small layout on that core is empty |
| `KernelHeaps.AllocServes` | kernel/src/allocator.rs:228-241 | a block comes from the pool at the lowest room iff the layout is for it and there is room; else from the tightest class iff the layout is small; else it is the list heap's own answer |
| `KernelHeaps.InstallKeeps` | kernel/src/allocator.rs:283-294 | installing a page-aligned pool outside the heap's region keeps the whole invariant with blocks already live |
| `KernelHeaps.StepKeeps` | kernel/src/allocator.rs:226-256 | every alloc, free and install by any core keeps the invariant |
| `KernelHeaps.EveryRun` | kernel/src/allocator.rs:226-355 | over every interleaving from boot: pool and cache invariants, frees routed to the origin, blocks aligned, as large as their layout and pairwise disjoint |
| `KernelHeaps.KernelHeap.constructor` | kernel/src/allocator.rs:366 | at boot: no pool, nothing live |
| `KernelHeaps.KernelHeap.AllocInner` | kernel/src/allocator.rs:228-241 | in place, by any core: pool for big layouts, else the class on the core's own slot, else the list heap, as the step says |
| `KernelHeaps.KernelHeap.TryPool` | kernel/src/allocator.rs:229-233 | in place: big layouts take the lowest fitting run, others and a full pool change nothing |
| `KernelHeaps.KernelHeap.FromHeap` | kernel/src/allocator.rs:234-240 | in place: the class or list-heap part of an alloc |
| `KernelHeaps.KernelHeap.DeallocInner` | kernel/src/allocator.rs:243-256 | in place, by any core: the matching free, after which exactly that block is no longer live |
| `KernelHeaps.KernelHeap.ToPool` | kernel/src/allocator.rs:244-247 | in place: the pool's part of a free |
| `KernelHeaps.KernelHeap.ToHeap` | kernel/src/allocator.rs:248-255 | in place: the class or list-heap part of a free |
| `KernelHeaps.KernelHeap.InstallPool` | kernel/src/allocator.rs:283-294 | in place: the install step |
| `Receive.ArriveKeeps` | kernel/src/e1000.rs:125-133 | an arriving frame is queued, or refused, keeping ring and order |
| `Receive.PollKeeps` | kernel/src/e1000.rs:208-229 | a poll keeps ring and order and finds a frame iff one waits |
| `Receive.FullMeansAllButOne` | kernel/src/e1000.rs:131-133 | the NIC owns no descriptor iff NDESC - 1 frames wait |
| `Receive.EveryRun` | kernel/src/e1000.rs:208-229 | over every interleaving: RDT one behind the head, DD set exactly on the waiting slots, accepted = polled + waiting in order, refusal iff NDESC - 1 wait |
| `Transmit.OfferKeeps` | kernel/src/e1000.rs:182-195 | submitting keeps the ring sound iff at most NDESC - 2 descriptors are unfinished |
| `Transmit.TailIsNotOwned` | kernel/src/e1000.rs:185-195 | the descriptor filled is never one the NIC still owns |
| `Transmit.DrainKeeps` | kernel/src/e1000.rs:172-205 | the NIC sending one descriptor keeps ring and order |
| `Transmit.SendKeeps` | kernel/src/e1000.rs:172-205 | a send of 1 to 2048 bytes, and no other, is submitted; it keeps ring and order iff at most NDESC - 2 are unfinished or it is refused, and reports true iff this frame and all earlier ones are on the wire |
| `Transmit.EveryRun` | kernel/src/e1000.rs:172-205 | over every run from set-up with any sends and waits: when every send was careful the wire is a prefix of the submitted frames, and the rest is what the NIC still owns, each descriptor asking for a whole packet to be reported; when one was not, at least NDESC frames are missing at the end |
| `Transmit.SoundWhenCareful` | kernel/src/e1000.rs:172-205 | a run from a sound state ends sound iff every send of it found at most NDESC - 2 unfinished |
| `Transmit.StaysBehind` | kernel/src/e1000.rs:172-205 | once a ring's length of frames is missing it stays missing, whatever is sent later |
| `Transmit.FullRingStalls` | kernel/src/e1000.rs:194-204 | with NDESC - 1 unfinished the send fails and none of the NDESC frames leaves |
| `Transmit.Stalled` | kernel/src/e1000.rs:194-204 | a ring whose TDT met TDH sends nothing, however long the driver waits |
| `Transmit.TimeoutsFillTheRing` | kernel/src/e1000.rs:196-204 | a NIC that sends nothing is brought to NDESC - 1 unfinished by that many timeouts |
| `E1000Driver.E1000.constructor` | kernel/src/e1000.rs:125-139 | the rings as set up are the start states of both protocols |
| `E1000Driver.E1000.NicReceive` | kernel/src/e1000.rs:125-133 | in place: the arrival step, taken iff fewer than NDESC - 1 frames wait |
| `E1000Driver.E1000.PollRecv` | kernel/src/e1000.rs:208-229 | in place: returns the oldest waiting frame and frees its slot |
| `E1000Driver.E1000.NicTransmit` | kernel/src/e1000.rs:135-139 | in place: the NIC sends the next descriptor it owns |
| `E1000Driver.E1000.Submit` | kernel/src/e1000.rs:185-195 | in place: fills the tail descriptor and moves TDT |
| `E1000Driver.E1000.Wait` | kernel/src/e1000.rs:196-203 | answers whether the descriptor is done when the wait ends |
| `E1000Driver.E1000.Send` | kernel/src/e1000.rs:172-205 | in place: the send step, with every frame size and every wait |
| `Merkle.ComputeRoot` | scripts/mkeuropack.py:46-55 | the level loop computes the recursive root |
| `Merkle.RootIsTop` | scripts/mkeuropack.py:46-55 | the root is the top node of the lowest tree over the leaves, split at the largest power of two below their number, where a node without a right half is paired with itself |
| `Merkle.RootBinds` | scripts/mkeuropack.py:42-55 | equally many different leaves with equal roots give a hash collision, despite the doubled last node |
| `Merkle.PadBinds` | scripts/mkeuropack.py:37-40 | padded pages agree only when the shorter one is the other cut in its zero tail |
| `EuroPack.Align` | scripts/mkeuropack.py:35 | the least multiple of the page size that is not below n |
| `EuroPack.FileBinds` | scripts/mkeuropack.py:117-141 | a file that passes under the size and root of `data` holds `data` up to zeros cut off by the image's end, or gives a collision |
| `EuroPack.HoldsExactlyWhenLongEnough` | scripts/mkeuropack.py:127-138 | barring a collision it holds `data` exactly iff the image reaches that far |
| `EuroPack.TruncatedImagePasses` | scripts/mkeuropack.py:127-138 | a packed zero byte can be cut off and the check still passes |
| `EuroPack.OffsetsOk` | scripts/mkeuropack.py:87-95 | the running offset gives page-aligned, ordered, disjoint regions |
| `EuroPack.WriteAllOk` | scripts/mkeuropack.py:104-107 | no write clobbers an earlier one and every part is at its offset |
| `EuroPack.LayoutOk` | scripts/mkeuropack.py:87-95 | manifest, leaf tables and data come in that order, aligned and disjoint |
| `EuroPack.BodyOk` | scripts/mkeuropack.py:97-108 | the written body starts with the manifest and holds every table and file at its offset |
| `EuroPack.EntryRoundTrip` | scripts/mkeuropack.py:99-103 | the packed numbers and root of an entry read back |
| `EuroPack.EntryTableParses` | scripts/mkeuropack.py:127-131 | entry i of the written table parses to the entry packed, and is refused exactly when its path is not text |
| `EuroPack.AllFilesPass` | scripts/mkeuropack.py:126-141 | the check reports no bad file iff every entry parses and every file passes |
| `EuroPack.BuiltImagePasses` | scripts/mkeuropack.py:81-141 | every image the builder accepts passes the check, signature, roots and pages, iff its paths are text |
| `EuroPack.PassingImageHoldsTheFiles` | scripts/mkeuropack.py:117-141 | any image that passes with the signed part of a built one holds each packed file, up to the cut zero tail, or gives a collision |
| `EuroPack.CheckFile` | scripts/mkeuropack.py:127-138 | the counting loop answers whether root and all pages are right |
| `EuroPack.CheckImage` | scripts/mkeuropack.py:117-141 | the whole check, with its refusals, a path that is not text among them, and its count of bad files |
| `EuroPack.AssignOffsets` | scripts/mkeuropack.py:87-95 | the offset loop computes the layout |
| `EuroPack.WriteParts` | scripts/mkeuropack.py:104-107 | the seek and write loop computes the body |
| `EuroPack.BuildManifest` | scripts/mkeuropack.py:98-103 | the entry loop writes the manifest |
| `EuroPack.HashLeaves` | scripts/mkeuropack.py:88-92 | the hashing loop gives each file's leaf table |
| `EuroPack.ShortPaths` | scripts/mkeuropack.py:84-85 | the path loop answers whether every path fits its field |
| `EuroPack.BuildImage` | scripts/mkeuropack.py:81-112 | the whole build, with the refusal of long paths and of numbers too large for their field |
| `EuroPack.BuildSucceeds` | scripts/mkeuropack.py:81-103 | a build succeeds iff no path is over 191 bytes and every number fits its field |
| `Bytes.LEByteAt` | scripts/mkeuropack.py:15 | numbers are little-endian: byte i counts 256^i |
| `EuroPack.BuiltHeader` | scripts/mkeuropack.py:15-19 | byte by byte: magic, count, flags, salt, and the signature over the first 48 bytes and the entries; the size a multiple of 4096 |
| `EuroPack.BuiltEntry` | scripts/mkeuropack.py:20-22 | entry i at 112 + 248 i: path and zeros, data offset, size, leaf offset, root; there the data, and for each page the hash of salt, a zero byte and the padded page |
| `EuroPack.LayoutTight` | scripts/mkeuropack.py:85-93 | leaf tables begin on the first page after the entries, each region on the first page after the one before |
| `EuroPack.BuiltSize` | scripts/mkeuropack.py:104-108 | and the image ends with the page of its last byte |
| `EuroPack.CheckSucceeds` | scripts/mkeuropack.py:117-128 | the check gets to the files iff the magic is version 2's, the signature is one of header and entries, and every entry can be read |
| `EuroPack.BadFilesCounted` | scripts/mkeuropack.py:124-141 | the number answered is the number of files that do not pass |
| `Utf8.ByteAt` | kernel/src/editcore.rs:45-47 | the byte position is that of the column's character, a character boundary, or the end |
| `Utf8.EncodeSplit` | kernel/src/editcore.rs:45-47 | cutting the text at a character cuts its bytes at a boundary |
| `Utf8.CharCount` | kernel/src/editcore.rs:38-43 | counting lead bytes counts the characters |
| `Editing.StepKeepsInv` | kernel/src/editcore.rs:50-155 | a key keeps at least one line, row and column in range and no newline in a line, iff it is not a newline typed as a character |
| `Editing.StepInRange` | kernel/src/editcore.rs:50-155 | every key keeps row and column in range |
| `Editing.EveryKeyRefines` | kernel/src/editcore.rs:50-155 | every key is the matching operation on the flat text with one offset, with the same answer; false means nothing changed; the buffer is sound after it iff it was not a typed newline |
| `Editing.EveryRunRefines` | kernel/src/editcore.rs:50-155 | so is every sequence of keys without a typed newline |
| `Editing.MarkedWhenChanged` | kernel/src/editcore.rs:50-155 | a key marks the buffer as changed iff it changes the text, and the mark stays |
| `Editing.ChangesAreMarked` | kernel/src/editcore.rs:50-155 | after any keys a text that is not as loaded is marked |
| `Editing.RefusedMeansUnchanged` | kernel/src/editcore.rs:50-155 | the answer false means the buffer is as it was |
| `Editing.CharThenBackspace` | kernel/src/editcore.rs:52-91 | typing any character and Backspace restore text and cursor from any state |
| `Editing.EnterThenBackspace` | kernel/src/editcore.rs:59-91 | so do Enter and Backspace |
| `Editing.DeleteIsRightThenBackspace` | kernel/src/editcore.rs:75-127 | Delete is Right then Backspace, and Right moves iff the cursor is not at the end |
| `Editing.JoinSplit` | kernel/src/editcore.rs:23-36 | text of the lines a text was split into is that text |
| `Editing.SplitJoin` | kernel/src/editcore.rs:23-36 | splitting the text of newline-free lines gives the lines back |
| `EditorBuffer.Buffer.SetText` | kernel/src/editcore.rs:23-32 | in place: the text's lines, cursor at the start, not dirty |
| `EditorBuffer.Buffer.Text` | kernel/src/editcore.rs:34-36 | the bytes of the flat text |
| `EditorBuffer.Buffer.ClampCol` | kernel/src/editcore.rs:38-43 | in place: the column is cut to the line's length |
| `EditorBuffer.Buffer.constructor` | kernel/src/editcore.rs:18-20 | one empty line, cursor at the start |
| `EditorBuffer.Buffer.Replace` | kernel/src/editcore.rs:75-97 | in place on bytes: exactly the characters between two columns are replaced |
| `EditorBuffer.Buffer.SplitHere` | kernel/src/editcore.rs:59-64 | in place: the line is cut at the cursor |
| `EditorBuffer.Buffer.JoinAt` | kernel/src/editcore.rs:82-102 | in place: a line moves to the end of the one above |
| `EditorBuffer.Buffer.EditKey` | kernel/src/editcore.rs:52-106 | in place: the keys that change the text |
| `EditorBuffer.Buffer.MoveKey` | kernel/src/editcore.rs:107-153 | in place: the keys that only move the cursor |
| `EditorBuffer.Buffer.HandleKey` | kernel/src/editcore.rs:50-155 | in place on byte lines: every key does the step above and gives its answer, and keeps the invariant iff it is not a typed newline |
| `Policies.UnderMeans` | kernel/src/apppolicy.rs:60-62 | a prefix covers what continues it, and one that ends in a slash the directory itself |
| `Policies.DenyRefuses` | kernel/src/apppolicy.rs:68-80 | one more deny entry refuses exactly what lies under it, reading and writing |
| `Policies.ReadGrants` | kernel/src/apppolicy.rs:68-80 | one more read entry grants reading of exactly the absolute paths under it that no deny covers |
| `Policies.WriteGrants` | kernel/src/apppolicy.rs:68-80 | one more write entry grants reading and writing of exactly those under it |
| `Policies.OnlyPathListsCount` | kernel/src/apppolicy.rs:68-80 | name, schema and domains have no say over paths |
| `Policies.NoEntriesAllow` | kernel/src/apppolicy.rs:68-80 | without entries: relative paths, and of the absolute ones those under the base list and no hard deny |
| `Policies.DeniedIsRefused` | kernel/src/apppolicy.rs:68-72 | no list grants what a deny covers |
| `Policies.QueryMeans` | kernel/src/apppolicy.rs:158 | a query's name is what is asked for without the dots at its end |
| `Policies.DomainGrants` | kernel/src/apppolicy.rs:158-160 | one more domain adds exactly itself and the names below it |
| `Policies.Propose` | kernel/src/apppolicy.rs:178-188 | the loop over the wants computes the proposal |
| `Policies.ProposalIsSound` | kernel/src/apppolicy.rs:70-80 | each recorded refusal neither hard-denied nor under the policy's own denies is allowed by the proposal |
| `Policies.ProposalIsMinimal` | kernel/src/apppolicy.rs:177-188 | what is newly allowed lies under a recorded want, and nothing hard-denied is ever allowed |
| `Policies.ProposalResolvesOnlyWants` | kernel/src/apppolicy.rs:154-188 | a newly resolved name lies in a recorded domain |
| `Policies.ProposalExtends` | kernel/src/apppolicy.rs:177-188 | the proposal only appends to the base's lists |
| `Policies.ExtendsAllows` | kernel/src/apppolicy.rs:70-80 | so nothing that was allowed is lost |
| `Policies.ExtendsResolves` | kernel/src/apppolicy.rs:154-166 | and no name that resolved is lost |
| `Policies.ProposalIsStable` | kernel/src/apppolicy.rs:178-188 | proposing again from the same wants adds nothing |
| `Policies.ProposalHolds` | kernel/src/apppolicy.rs:178-188 | exactly what each list of the proposal holds, for any wants |
| `Policies.ProposalGrows` | kernel/src/apppolicy.rs:178-188 | more wants only extend it, so additions are in the order of the wants |
| `Policies.ProposalAddsOnce` | kernel/src/apppolicy.rs:178-188 | and nothing is added twice |
| `PolicyText.Parse` | kernel/src/apppolicy.rs:91-118 | the loop over the lines computes the parse, with every refusal |
| `PolicyText.ReadLineByLine` | kernel/src/apppolicy.rs:91-118 | any text is read iff every line says nothing, begins a section, or gives a key of its section a value of its kind, the schema is at most 1 and a program is named; each field is what the last line for it says |
| `PolicyText.ListPieces` | kernel/src/apppolicy.rs:100-103 | a list is read piece by piece between commas, each without spaces and then quotes, empty ones dropped |
| `PolicyText.ItemsNext` | kernel/src/apppolicy.rs:82-86 | entries are written quoted, after a comma and a space |
| `PolicyText.RoundTrip` | kernel/src/apppolicy.rs:81-118 | writing and reading gives the policy back iff schema is current, the name not empty or quote-bounded, and entries are non-empty, comma-free, newline-free and not quote-bounded |
| `PolicyText.WrittenIsRead` | kernel/src/apppolicy.rs:81-118 | without line breaks in it, what was written is read, every list as that list reads back and good lists as they were, then the final tests applied |
| `PolicyText.UnbrokenIsReadable` | kernel/src/apppolicy.rs:81-118 | with a name that can be written and no line break in an entry, the file is readable iff the schema is not newer, as a policy for the same program |
| `PolicyText.AcceptedIsCarried` | kernel/src/apppolicy.rs:91-118 | whatever text is accepted, its policy survives the text form |
| `PolicyText.RewriteIsStable` | kernel/src/apppolicy.rs:81-118 | reading any text and writing it out is stable from then on |
| `PolicyText.NewerSchemaRefused` | kernel/src/apppolicy.rs:114-117 | no text is ever read as a higher schema, and a policy the form could otherwise carry is refused for it |
| `PolicyText.CutListUnreadable` | kernel/src/apppolicy.rs:81-118 | whichever of the four lists is the first with a line break, the file is unreadable when what is left of its line, trimmed, does not end like a list |
| `PolicyText.BrokenPathUnreadable` | kernel/src/apppolicy.rs:81-118 | one such policy, with a line break in a path |
| `PolicyText.TwoLinesReadBack` | kernel/src/apppolicy.rs:81-118 | an entry that ends its list and begins a line for another reads back as one entry of each |
| `PolicyGate.RunKeeps` | kernel/src/apppolicy.rs:121-205 | over every run of gates, learning, approvals and launches each want is recorded once, names without final dots, the proposal kept extends its base, and what is in force can be carried or is a program's empty policy |
| `PolicyGate.NameOfAProgram` | kernel/src/apppolicy.rs:53-55 | a program's name is what follows the last slash |
| `PolicyGate.NeverGrantsDenied` | kernel/src/apppolicy.rs:121-205 | after any run no path under a deny entry of the policy in force is granted, and that policy stays in force until the next launch or exit |
| `PolicyGate.OnlyTheOwner` | kernel/src/apppolicy.rs:197-205 | over every run only the owner's approvals change what is loaded, each for its own program |
| `PolicyGate.ProposalCarried` | kernel/src/apppolicy.rs:170-188 | a proposal from a carried base can be carried iff every want can |
| `PolicyGate.ApprovedIsInForce` | kernel/src/apppolicy.rs:127-205 | learn, approve and launch put exactly the proposal in force iff the program's name and every want can be written out; launching another program finds what was stored for that one |
| `PolicyGate.InForceIsReadBack` | kernel/src/apppolicy.rs:121-205 | what is in force after approve and launch is what the text reads back as; when it cannot be read, nothing, or the empty policy while learning |
| `PolicyGate.GatedWhenReadable` | kernel/src/apppolicy.rs:121-152 | after approve and launch the gate answers for the program iff the stored text reads back as a policy for it, or cannot be read while learning; so always without line breaks, and as the policy itself when that can be carried |
| `PolicyGate.CutListLeavesNoPolicy` | kernel/src/apppolicy.rs:121-152 | outside a session an approved list cut short in that way leaves the program without a policy, so the gate answers for no path |
| `PolicyGate.GrantsOnlyWants` | kernel/src/apppolicy.rs:121-205 | when name and wants can be written out, after learn, approve and launch exactly the proposal is in force, what it grants beyond the base lies under a recorded want or domain, and nothing hard-denied or denied by the base is granted |
| `PolicyGate.GrantsWhatWasRefused` | kernel/src/apppolicy.rs:121-205 | one session whose proposal refuses a path that the gate grants after approve and launch |
| `PolicyGate.LearnedIsGranted` | kernel/src/apppolicy.rs:138-188 | then every recorded refusal not denied for good is granted by the gates |
| `PolicyGate.CommaSplitsEntry` | kernel/src/apppolicy.rs:82-112 | an entry with a comma reads back as its two halves |
| `PolicyGate.CommaIsNotCarried` | kernel/src/apppolicy.rs:81-118 | so such a policy does not read back as itself |
| `PolicyGate.Gatekeeper.constructor` | kernel/src/apppolicy.rs:46-51 | no policy in force, no session, no proposal |
| `PolicyGate.Gatekeeper.RecordWant` | kernel/src/apppolicy.rs:144-148 | in place: afterwards a want of the program being learned is on the list, once, and the wants before it are kept in order |
| `PolicyGate.Gatekeeper.PathGate` | kernel/src/apppolicy.rs:138-152 | in place: answers exactly for the program whose policy is in force; never allows what a hard deny or a deny entry of that policy covers; a refusal while learning is on the list of wants |
| `PolicyGate.Gatekeeper.DnsGate` | kernel/src/apppolicy.rs:154-166 | in place: answers exactly for that program, true iff one of its domains covers the name without its final dots; a refusal while learning is on the list of wants |
| `PolicyGate.Gatekeeper.Begin` | kernel/src/apppolicy.rs:168 | in place: a fresh session, which ended at once would propose just what is stored |
| `PolicyGate.Gatekeeper.EndLearning` | kernel/src/apppolicy.rs:170-176 | in place: ends the session, if there is one, and keeps a proposal that extends what is stored and serves every want |
| `PolicyGate.Gatekeeper.ApprovePolicy` | kernel/src/apppolicy.rs:197-205 | in place: done iff it is the owner and the file can be stored; the policy then loads as itself iff it can be carried, and no other program's does change |
| `PolicyGate.Gatekeeper.LaunchApp` | kernel/src/apppolicy.rs:121-133 | in place: what comes in force can be carried or is the empty policy of the program being learned; nothing only outside a session |
| `HwParams.Choose` | kernel/src/alsa.rs:153-159 | the value in both intervals nearest to the wanted one; none iff they do not meet |
| `HwParams.SizesOk` | kernel/src/alsa.rs:221-224 | the period nearest to 1024 in the client's interval and 240..ring/2; buffer the greatest multiple of it the client and ring admit; below the client's minimum iff its interval holds no multiple |
| `HwParams.BelowTheMinimum` | kernel/src/alsa.rs:221-224 | a client asking for 2500 to 2900 frames in periods of 1000 gets 2000 |
| `HwParams.SizesAgain` | kernel/src/alsa.rs:221-224 | asked for exactly what was chosen, the same is chosen |
| `HwParams.RefineOk` | kernel/src/alsa.rs:163-266 | the same bounds for a whole successful refine |
| `HwParams.SizesFound` | kernel/src/alsa.rs:221-224 | with a period that suits both, sizes are found iff a buffer of two such periods does |
| `HwParams.NoPeriod` | kernel/src/alsa.rs:221 | without such a period none are |
| `HwParams.RefineSucceeds` | kernel/src/alsa.rs:188-224 | a refine succeeds iff the client offers one of two accesses, S16_LE, STD, 16 and 32 bits, 2 channels, 48000, and sizes that suit the ring |
| `HwParams.RefineGives` | kernel/src/alsa.rs:212-232 | the words handed back agree: one value per interval, frame bits of samples and channels, sizes as chosen, periods times period the buffer, bytes and microseconds of them iff these fit 32 bits |
| `HwParams.RefineMasks` | kernel/src/alsa.rs:202-248 | one bit in each mask, the information words, and every other word as the client set it |
| `HwParams.RefineIsFixpoint` | kernel/src/alsa.rs:163-266 | refining its own output succeeds, changes no mask and no interval and reports cmask 0 |
| `HwParams.CmaskFollowsTheTest` | kernel/src/alsa.rs:233-242 | bit k of cmask is set iff the comparison finds parameter k different |
| `HwParams.CmaskIsRight` | kernel/src/alsa.rs:180-242 | a set bit means the parameter changed; the bit is right, over all words of the parameter, iff its compared part changes or the rest was already plain |
| `HwParams.UnreportedChanges` | kernel/src/alsa.rs:180-248 | a client whose second format and interval flags are changed and not told |
| `HwParams.PutInterval` | kernel/src/alsa.rs:126-132 | in place: minimum, maximum and flags of one interval, nothing else |
| `HwParams.PutMask` | kernel/src/alsa.rs:138-144 | in place: one word of the mask, its other words zero, nothing else |
| `HwParams.FixParams` | kernel/src/alsa.rs:212-220 | in place: succeeds iff all four fixed values lie in the client's intervals |
| `HwParams.NarrowMasks` | kernel/src/alsa.rs:202-207 | in place: the three masks hold one bit each |
| `HwParams.NarrowRest` | kernel/src/alsa.rs:225-248 | in place: the intervals that follow from period and buffer, cmask and the information words |
| `HwParams.CountChanged` | kernel/src/alsa.rs:235-241 | the two loops compute cmask |
| `HwParams.RefineBlock` | kernel/src/alsa.rs:163-266 | in place: the client's block becomes the refined one, or is left alone when refused |
| `PcmRing.SyncKeeps` | kernel/src/alsa.rs:103-120 | advancing by the clock keeps the invariant and never moves the hardware pointer back |
| `PcmRing.SyncFollowsTheClock` | kernel/src/alsa.rs:103-120 | a running stream is synced to the last frame the clock has reached, at 480 a tick, and the client has written; never back, and nothing else changes |
| `PcmRing.RunFollowsTheClock` | kernel/src/alsa.rs:103-457 | over every run the hardware pointer is at most 480 frames a tick since the start |
| `PcmRing.PlayedBeforeOverwritten` | kernel/src/alsa.rs:103-391 | over every run from a start, the slot of frame k is written again only once the clock has passed k |
| `PcmRing.WrittenSlot` | kernel/src/hda.rs:475-489 | after a wrapping copy slot (a + j) mod n holds frame j |
| `PcmRing.UntouchedSlot` | kernel/src/hda.rs:475-489 | and every other slot holds what it held |
| `PcmRing.LastFramesStay` | kernel/src/hda.rs:475-489 | of any amount of data the last ring's length is there, each frame in its slot |
| `PcmRing.WriteiKeeps` | kernel/src/alsa.rs:338-391 | a write with any answer keeps the invariant |
| `PcmRing.WriteiAnswers` | kernel/src/alsa.rs:338-391 | the exact answer: as many frames as offered and as there is room beyond those queued by the clock, with every refusal; what is kept of a write that faults; and when it starts the stream |
| `PcmRing.StartsAtTheThreshold` | kernel/src/alsa.rs:268-279 | a prepared stream starts with the write that takes it to the threshold set, and not before |
| `PcmRing.StepKeeps` | kernel/src/alsa.rs:401-457 | so does every call, and only open and prepare move the hardware pointer back |
| `PcmRing.EveryRun` | kernel/src/alsa.rs:69-457 | over every run of a stream just opened hw <= appl <= hw + buffer, each slot holds the last frame accepted for it and silence while there was none; over every continuation without open or prepare hw does not move back |
| `PcmRing.OutOfOrder` | kernel/src/alsa.rs:338-345 | after every run a write is refused as out of order iff the stream was not prepared since it was opened, closed, freed, given parameters or dropped |
| `PcmRing.PausedStandsStill` | kernel/src/alsa.rs:438-443 | a pause stops the hardware pointer whatever is called until it resumes, and resuming restores the stream as it was |
| `PcmRing.PlaysFromTheStart` | kernel/src/alsa.rs:308-430 | a prepared stream started at tick t has at any later tick played all that the clock since t and the client's frames allow: by START at once, by SYNC_PTR from the threshold on |
| `PcmRing.StartsOnlyPrepared` | kernel/src/alsa.rs:308-430 | starting any other stream does nothing |
| `PcmRing.CommitsWhatItAnswers` | kernel/src/alsa.rs:163-265 | HW_PARAMS commits the period and buffer it hands back, or changes nothing |
| `PcmRing.OpenKeepsTheBuffer` | kernel/src/alsa.rs:69-84 | opening gives a silent ring and the buffer agreed on before, if it fits |
| `PcmRing.SilentWhenClosed` | kernel/src/alsa.rs:86-437 | closing, dropping and preparing silence every slot |
| `PcmRing.SilencedSlot` | kernel/src/hda.rs:491-503 | silencing between two offsets reaches exactly that many slots from the first, going round |
| `PcmRing.RefineFitsTheRing` | kernel/src/alsa.rs:208-224 | the committed buffer fits the ring for all clients iff the ring has 2048 frames |
| `PcmRing.PcmDevice.PcmWrite` | kernel/src/hda.rs:475-489 | in place: the wrapping copy of any amount of data, a ring's length at a time |
| `PcmRing.PcmDevice.PcmZero` | kernel/src/hda.rs:491-503 | in place: exactly the slots between two offsets are silent, going round |
| `PcmRing.PcmDevice.constructor` | kernel/src/alsa.rs:69-84 | a stream just opened: ring silent, pointers zero, buffer the whole ring |
| `PcmRing.PcmDevice.SyncNow` | kernel/src/alsa.rs:103-120 | in place: the clock step |
| `PcmRing.PcmDevice.Prepare` | kernel/src/alsa.rs:420-429 | in place: ring silenced, pointers zero, prepared |
| `PcmRing.PcmDevice.Start` | kernel/src/alsa.rs:430 | in place: starts iff prepared |
| `PcmRing.PcmDevice.WriteFrames` | kernel/src/alsa.rs:338-391 | in place: the write step with its refusals, partial writes and the start threshold |
| `LinkTables.StrEqIsEquality` | userland/ldeuro.c:39-45 | the comparison is equality of the strings up to their zero bytes |
| `LinkTables.LookupFindsFirst` | userland/ldeuro.c:48-85 | the walk through headers, dynamic section and symbol table resolves the name in the library's symbol list |
| `LinkTables.ResolveIsFirst` | userland/ldeuro.c:74-84 | which is the first defined symbol of that name, or 0 when there is none |
| `LinkFrames.ExportsWithin` | userland/ldeuro.c:48-85 | the symbol list depends only on the bytes it is read from |
| `Linking.EffectIsIntended` | userland/ldeuro.c:88-103 | what an entry does is base + addend, the named symbol, or symbol + addend by its type, and nothing for other types |
| `Linking.MeetsTheAbi` | userland/ldeuro.c:95-101 | an entry does what the ABI asks iff it is not a GLOB_DAT with a non-zero addend; its slot is right in any case |
| `Linking.RelocAllStores` | userland/ldeuro.c:87-104 | every entry sees the tables as they were before any entry was applied |
| `Linking.LinksExactly` | userland/ldeuro.c:107-150 | for every well-formed image each slot holds its entry's word, no other byte changes, and the entry point is returned |
| `Linking.LinksByTheAbi` | userland/ldeuro.c:107-150 | in the linked memory a slot holds the ABI's word iff its entry is not a GLOB_DAT with a non-zero addend |
| `Linking.AddendReachesTheSlot` | userland/ldeuro.c:95-101 | on a well-formed image such an entry leaves its addend where the ABI asks for 0 |
| `Linking.AnyOrder` | userland/ldeuro.c:146-148 | any order of the entries, so RELA before JMPREL too, gives the same memory |
| `Linking.ReachedIsPrefix` | userland/ldeuro.c:87-104 | a run that faults has applied exactly the entries before the faulting one |
| `LinkImages.StartIs` | userland/ldeuro.c:107-148 | from the words of stack and dynamic section: the entries applied are exactly the whole 24-byte entries of DT_JMPREL and of DT_RELA, with AT_ENTRY, the load bases, DT_SYMTAB and DT_STRTAB as their last values say |
| `LinkImages.LibraryRead` | userland/ldeuro.c:47-85 | from the words of the library: its symbols are those its hash table counts, by section index, name and value; none without a usable dynamic section |
| `LinkImages.ResolveIsAddress` | userland/ldeuro.c:74-84 | a name resolves to the load base plus the value of the first defined symbol of that name, or to 0 |
| `LinkImages.LinksTheImage` | userland/ldeuro.c:47-150 | from those words alone: every such entry has its word in its slot by its type number, no other byte changes, and the answer is AT_ENTRY's value |
| `LinkImages.TinyLinks` | userland/ldeuro.c:107-150 | an image with one RELATIVE entry in DT_RELA meets all that is asked, and its slot ends with base and addend |
| `LdEuro.StringsEqual` | userland/ldeuro.c:39-45 | the byte loop computes the comparison |
| `LdEuro.FindSegment` | userland/ldeuro.c:127-133 | the header loop finds the first dynamic segment |
| `LdEuro.FindTables` | userland/ldeuro.c:62-71 | one pass keeps the last value of each tag |
| `LdEuro.ScanSymbols` | userland/ldeuro.c:75-84 | the symbol loop |
| `LdEuro.ReadLibTables` | userland/ldeuro.c:49-73 | where the library keeps its symbols, or nothing when a table is missing |
| `LdEuro.LookupSymbol` | userland/ldeuro.c:48-85 | the whole lookup, equal to the first defined symbol of the name |
| `LdEuro.FindAuxv` | userland/ldeuro.c:108-112 | skips the environment up to its zero word |
| `LdEuro.ReadPairs` | userland/ldeuro.c:114-145 | the tag and value pairs up to the zero tag |
| `LdEuro.Process.StoreWord` | userland/ldeuro.c:94-101 | in place: one 8-byte store, or a fault that changes nothing |
| `LdEuro.Process.RelocEntry` | userland/ldeuro.c:89-102 | in place: one entry's store, or a fault that changes nothing |
| `LdEuro.Process.Reloc` | userland/ldeuro.c:87-104 | in place: every whole 24-byte entry in order, up to the first that faults |
| `LdEuro.Process.Link` | userland/ldeuro.c:107-150 | in place: the whole linker; a run that faults leaves the stores made before |
| `AhciCommand.DecodesBack` | kernel/src/ahci.rs:195-223 | header, FIS and PRDT decode to the intended command, with the LBA cut to 48 bits |
| `AhciCommand.LbaArrives` | kernel/src/ahci.rs:208-215 | the LBA arrives as meant iff it is below 2^48 |
| `AhciTransfer.IssueReaches` | kernel/src/ahci.rs:195-238 | one command acts on exactly its sectors and completes iff the device completes it and they exist |
| `AhciTransfer.WriteLands` | kernel/src/ahci.rs:279-300 | success puts exactly buffer and zero tail on exactly its sectors; failure leaves a prefix, at most 128 sectors of the range in doubt, the rest alone |
| `AhciTransfer.WriteSucceeds` | kernel/src/ahci.rs:279-300 | it succeeds iff every sector of the range exists and every command completes |
| `AhciTransfer.ReadSucceeds` | kernel/src/ahci.rs:258-276 | and so does a read |
| `AhciTransfer.ReadReturns` | kernel/src/ahci.rs:258-276 | success returns exactly the bytes of the range, failure a prefix of them; the disk never changes |
| `AhciTransfer.WriteThenRead` | kernel/src/ahci.rs:258-300 | reading back gives the buffer written, for every length |
| `AhciTransfer.WriteWraps` | kernel/src/ahci.rs:208-215 | every write acts as the one at its LBA cut to 48 bits |
| `AhciTransfer.ReadWraps` | kernel/src/ahci.rs:208-215 | and so does every read |
| `AhciTransfer.WriteAtTheLimit` | kernel/src/ahci.rs:279-300 | one byte written at LBA 2^48 overwrites sector 0 |
| `AhciTransfer.WriteGoes` | kernel/src/ahci.rs:208-300 | for any LBA a successful write has sector i of the buffer on sector (lba + i) mod 2^48, the later one where two meet, and no other sector changes |
| `AhciTransfer.LandsWhenAddressable` | kernel/src/ahci.rs:279-300 | a successful write is where it was meant iff its range ends by sector 2^48 |
| `AhciTransfer.WriteBlocksLand` | kernel/src/ahci.rs:309-340 | a block write within sectors / 8 blocks succeeds iff the device completes it, and changes exactly its blocks |
| `AhciTransfer.BlocksRoundTrip` | kernel/src/ahci.rs:327-340 | blocks read back are the blocks written, the rest of the buffer untouched |
| `AhciDriver.AhciDisk.constructor` | kernel/src/ahci.rs:138-167 | structures and window zeroed |
| `AhciDriver.AhciDisk.FillHeader` | kernel/src/ahci.rs:197-201 | in place: the command header |
| `AhciDriver.AhciDisk.FillFis` | kernel/src/ahci.rs:203-217 | in place: the 64 bytes of the FIS |
| `AhciDriver.AhciDisk.FillPrdt` | kernel/src/ahci.rs:219-223 | in place: the one PRDT entry |
| `AhciDriver.AhciDisk.DeviceActs` | kernel/src/ahci.rs:225-237 | the device reads the structures and acts on what they decode to |
| `AhciDriver.AhciDisk.Command` | kernel/src/ahci.rs:195-238 | in place: fills the structures and lets the device act on what it decodes |
| `AhciDriver.AhciDisk.CopyChunk` | kernel/src/ahci.rs:288 | in place: the chunk at the front of the window |
| `AhciDriver.AhciDisk.ClearTail` | kernel/src/ahci.rs:290-292 | in place: zeros between two positions of the window |
| `AhciDriver.AhciDisk.LoadWindow` | kernel/src/ahci.rs:288-292 | in place: the chunk, zeros to its sector's end, the rest of the window kept |
| `AhciDriver.AhciDisk.WriteSectors` | kernel/src/ahci.rs:279-300 | in place: the chunk loop is the write above |
| `AhciDriver.AhciDisk.ReadSectors` | kernel/src/ahci.rs:258-276 | in place: the chunk loop is the read above |
| `AhciDriver.AhciDisk.CopyOut` | kernel/src/ahci.rs:271 | in place: the chunk goes to its place in the caller's buffer |

## Left out

- PcmRing.EveryRun: for rings of at least 2048 frames, because below that the committed buffer may exceed the ring, as `RefineFitsTheRing` shows.
- Editing.EveryRunRefines: not past a newline typed as a character, because lines would hold line breaks from then on; the key sources turn it into Enter before it gets here (kernel/src/ps2.rs, kernel/src/textedit.rs, kernel/src/notes.rs).
- AhciDriver.AhciDisk.Command: the two transfer commands with 1 to 128 sectors; IDENTIFY, which passes a count of 0, is not modelled.
- PcmRing.PcmDevice.WriteFrames: with prepare, start and sync the only calls modelled in place; the other calls of the device are steps on values.
- The insides of the list heap, and the variant of the allocator that traces every call: an abstract allocator with the usual contract stands for the first.
- Counters of hits, refills and flushes, statistics and log lines of every piece.
- Memory-mapped registers, PCI probing, interrupt status and the length of timeouts: a wait ends with any number of descriptors sent, a command with any outcome.
- More than eight cores, where two would share a slot of the caches.
- The e1000 calls before the NIC was found, which answer false or nothing; and frames whose descriptor the NIC marks with an error.
- SHA-256 and Ed25519 themselves; reading unsigned version 1 packs; the wording of the check's report.
- A carriage return in editor text beyond being a character like any other; drawing, selection and files of the editors.
- The diff, export, import and show commands of the policy shell, and the audit record of an approval.
- ALSA SYNC_PTR with a client-supplied application pointer, and PAUSE from a stream never prepared: the client can put any value there. STATUS, DELAY and HWSYNC appear as their clock step only.
- The HW_PARAMS block is modelled as its 152 little-endian words, not byte by byte; the period and buffer of a write are counted in whole frames.
- 64-bit overflow of the audio clock, which takes millions of years.
- A relocation table whose size is within 24 bytes of 2^64, where the loop counter would wrap; and a table entry with an unused tag whose value is not mapped, which the model counts as a fault.
- The linker's assembly entry and the kernel's relocation of the linker itself.
- Finding a disk by its index, IDENTIFY, the boot-sector probe and the port's start-up sequence.
- The libraries under crates/, EuroFS among them: the pieces modelled here meet them only at the contracts named above.
- The compositor and window programs, the network stack above frames, boot, attestation and the vault: drawing code, device start-up, and layers that pass calls on to those libraries.
