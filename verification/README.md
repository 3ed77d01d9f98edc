# Models of the archive, stream and host utilities

The repository carries copies of the Moby utility packages behind a Docker client. This project
models the ones with real algorithms in them and proves what they are for. `dafny verify dfyconfig.toml`
checks everything.

## What is modelled

**Layers** (`Text`, `FsTree`, `Changes`, `ChangeFields`, `Collect`, `LayerExport`, `LayerUnpack`,
`LayerSteps`, `LayerEntries`, `LayerRoundTrip`, `LinkTargets`, `LayerTransfer`, `LayerExamples`,
`OpaqueWhiteouts`). A file system is a tree of named nodes with stat
fields, contents and a capability. The walk that collects a tree records one file at a time, the
comparison appends to and shifts one list, export sorts it and writes whiteouts for deletions, unpacking
replays the archive on the old tree in place. The whiteout names are those of the OCI Image Layer
Filesystem Changeset, sections "Whiteouts" and "Opaque Whiteout". The main theorems say when replaying
the difference of two arbitrary trees on the old one gives the new one, separately for success, paths and
types, stat, capability and contents.

**Linux walker** (`SortedNames`, `Walker`). Both trees are collected at once, and entries with the same
inode on the same device are left out. Nothing is lost by that, provided that such entries really are
the same.

**Overlay** (`Overlay`, `OverlayEntries`). The translation between overlay and AUFS whiteouts, both ways, and the round
trip of a whole directory.

**Stream multiplexing** (`StdCopy`). The framing writer and the demultiplexer with its growing, sliding
buffer, against a recursive frame parser.

**BytesPipe** (`PipeModel`, `BytesPipe`). A state machine whose steps are the stretches of code under the
mutex, cut at `Wait`, with any number of callers; and the same steps on byte arrays, pooled buffers and
object fields, each proved to be the step of the machine.

**Ignore patterns and the tar walk** (`Regexp`, `GlobPatterns`, `IgnorePatterns`, `PatternTexts`,
`TarWalk`). The compiler
from globs to regular expression text, that text read and matched by the usual semantics, the meaning of
a glob on its own, last-match-wins with the parent rule, and the walk that prunes directories. The
patterns are built from ordinary characters, `.`, `$`, `?`, `*`, `**` and backslashes before punctuation.

**Event monitor** (`EventModel`, `EventMonitor`). A state machine of callers under a read-write lock, with
every send under the read lock a step of its own, and the methods on fields. Panics and a blocking
`Wait` are preconditions of the channel and counter operations.

**Small algorithms** (`IdMaps`, `SubordinateRanges`, `TmpfsOptions`, `RemoveAll`). Id maps, the search for
a free block of subordinate ids, merging and reading mount options, and the retry loop.

## Properties that fail, and exactly when

One would expect these of the code or its comments. Each has a theorem with the exact condition, and most
a concrete case.

- A symlink whose cleaned target leaves the destination is refused as a breakout, so the difference of
  two trees cannot be applied when it carries one (`AppliesIffLinksStay`). The test compares texts, so a
  target outside counts as inside when its name begins like that of the destination
  (`RefusedByComponents`).
- The comparison of times is written for an archive that truncates to seconds; `archive/tar` rounds. A
  time in the later half of a second, or one that `Chtimes` does not take, shows up as a change again, and
  so does the time of a symlink whose nanoseconds need more than 64 bits (`SameStatIff`,
  `LinkTimeSurvivesIff`).
- Merging a directory entry into an existing directory never removes a capability (`SameCapabilityIff`).
- An opaque whiteout removes a layer's own files from a directory that has no entry of its own before
  (`OpaqueKeepsOwnIff`).
- `BytesPipe.Write` waits for room without a broadcast, so a reader that came first can sleep on, next to
  a full pipe (`LostWakeUpIff`, `ReaderAndWriterStuck`).
- The header cuts the length of a write to 32 bits, so a longer one does not come through whole
  (`FramesOfMuxedIff`, `TooLongIsCut`).
- `**` does not reach across a newline (`CompiledAccepts`, `DoubleStarAccepts`).
- Pruning skips too much for `**` patterns and for exclusions with wildcards (`DoubleStarPrunesTooMuch`,
  `WildcardExclusionPrunesTooMuch`; what is selected in any case says `SelectedIff`).
- A listener that was closed before it is added makes disabling panic (`AddedOpenIff`).
- `ToContainer` does not undo `ToHost` for an id that equals the host id of root
  (`ToContainerUndoesToHostIff`).
- `findNextRangeStart` does not see a range strictly inside the block (`BlockFreeBeforehandIff`,
  `LengthsThatSuffice`).
- Merging mount options drops propagation bits (`MergeKeepsWordIff`), and what it accepts cannot always be
  read back, since an option may hold a comma (`ReadsBackIff`).
- `EnsureRemoveAll` can return a does-not-exist error (`NotExistEscapesIff`).

## Model

| member | source | states |
|---|---|---|
| Changes.Differ.AddChanges | docker/pkg/archive/changes.go:248-323 | one call on a node appends, after everything already in the list, at most one entry per path at or below the node: exactly the added, deleted, differing and changed-inside paths, every directory before what is in it |
| Changes.Differ.VisitChild | docker/pkg/archive/changes.go:272-299 | a child that differs gets its Modify entry first, a new one its Add entry, and then come the entries below it |
| Changes.Differ.AddDeletes | docker/pkg/archive/changes.go:300-307 | what is left in the copied map of old children, and nothing else, gets a Delete entry |
| Changes.Differ.RecordDirectory | docker/pkg/archive/changes.go:309-321 | an unchanged directory with changes inside gets a Modify entry in front of them; one that already has an entry, or the root, gets none |
| Changes.Differ.InsertAt | docker/pkg/archive/changes.go:318-320 | append, copy up and overwrite inserts one entry and keeps all others in order |
| Changes.ShiftedIn | docker/pkg/archive/changes.go:318-320 | the three list operations together are an insertion |
| Changes.ChangesBetween | docker/pkg/archive/changes.go:326-332 | the list of a whole comparison has pairwise distinct paths, parents first, and exactly the entries that EntryMeaning describes |
| Changes.EntryMeaning | docker/pkg/archive/changes.go:248-323 | whether a path is added, deleted or modified depends on what the two trees hold at that path only: Add iff new alone, Delete iff old alone below a directory that still is one, Modify iff both and different, or a directory with something changed inside |
| Changes.CoversTouched | docker/pkg/archive/changes.go:312-312 | a subtree has entries iff something in it is added, deleted or different |
| Changes.EmptyIffSame | docker/pkg/archive/changes.go:326-332 | the list is empty iff the trees have the same paths and no difference in stat or capability |
| Changes.AncestorsPrecede | docker/pkg/archive/changes.go:309-321 | every entry is preceded by entries for all its ancestors below the root |
| ChangeFields.EntriesByFields | docker/pkg/archive/changes_unix.go:17-29 | for every path of both trees, in the fields of stat: Modify iff type, mode, owner, device number or capability differ, or for what is no directory size, second, or nanoseconds that both clocks have, or for a directory something below it has an entry |
| ChangeFields.TouchedMeansBelow | docker/pkg/archive/changes.go:309-321 | something below a directory was touched iff the list has an entry below it |
| Collect.InfoCollector.Visit | docker/pkg/archive/changes_other.go:70-95 | one file is recorded under its parent; the missing-parent error comes up iff the parent is not recorded |
| Collect.InfoCollector.Walk | docker/pkg/archive/changes_other.go:47-96 | the lexical walk from any node records exactly what is at and below it, and no parent is ever missing |
| Collect.CollectFileInfo | docker/pkg/archive/changes_other.go:44-101 | a whole walk ends without error, and looking a path up in the result finds exactly the paths of the directory, with their stat and capability |
| Collect.FullInfoLookUp | docker/pkg/archive/changes_other.go:44-101 | the tree that the walk is proved to build has exactly those paths and attributes |
| LayerExport.ExportChanges | docker/pkg/archive/changes.go:397-433 | the archive is the sorted list, entry by entry: a whiteout for a deletion, the file itself for the rest, nothing for a file that is gone |
| LayerExport.SortIsSorted | docker/pkg/archive/changes.go:63-67 | sorting by path string orders the list |
| Text.LessIs | docker/pkg/archive/changes.go:65-67 | the order of path strings: the first place where two texts differ decides, or else the shorter one comes first |
| LayerExport.SortedUnique | docker/pkg/archive/changes.go:405-405 | with distinct paths there is one sorted order only, whatever the sorting algorithm does |
| LayerExport.SortKeepsCover | docker/pkg/archive/changes.go:405-405 | the sorted list still has exactly the entries for all differences, each path once |
| LayerExport.LayerIndependentOfMapOrder | docker/pkg/archive/changes.go:272-307 | two runs of the comparison that iterate their maps in different orders export the same archive |
| LayerUnpack.Disk.UnpackLayer | docker/pkg/archive/diff.go:25-223 | the loop over the archive, working on the destination in place, leaves the tree, the size and the error of the entry-by-entry replay, directory times last |
| LayerSteps.WhiteoutStep | docker/pkg/archive/diff.go:158-164 | the whiteout that export writes for a path removes that path with all below it, and nothing else |
| LayerSteps.EntryStep | docker/pkg/archive/diff.go:165-211 | an entry with an ordinary name below existing directories is neither passed over nor taken for a whiteout, and goes to be installed |
| LayerSteps.ApplyEntryPlaces | docker/pkg/archive/diff.go:170-202 | a file replaces what is there, a directory over a directory is merged into it |
| LayerSteps.PlacedAt | docker/pkg/archive/diff.go:165-202 | path by path: what one installed entry changes, and that it changes nothing else |
| LayerSteps.DirTimes | docker/pkg/archive/diff.go:215-220 | the final loop succeeds and changes nothing but times of directories |
| LayerRoundTrip.ReplayFrom | docker/pkg/archive/diff.go:44-213 | after k entries of an exported difference the tree has, path by path, the first k changes applied |
| LayerRoundTrip.AppliesIffNoRefusedLink | docker/pkg/archive/archive.go:634-646 | unpacking the exported difference of two trees on the old one succeeds iff no symlink in it has a target whose cleaned form leaves the destination; any failure is the breakout error |
| LayerRoundTrip.DownwardLinkNotRefused | docker/pkg/archive/archive.go:634-646 | a target without ".." is never refused |
| LayerRoundTrip.SamePathsAndTypes | docker/pkg/archive/diff.go:25-223 | when it succeeds, the result has exactly the paths of the new tree, with their types |
| LayerRoundTrip.LinkTimeSurvivesIff | docker/pkg/archive/time_linux.go:11-19 | the time of a symlink comes back in its own second iff the archive keeps the second and its nanoseconds fit 64 bits; otherwise it wraps, or is not set at all for the zero time |
| LayerRoundTrip.SameStatIff | docker/pkg/archive/changes_unix.go:17-29 | comparing the result with the new tree again finds a stat difference at a path iff the path was in the list, is no directory, and has a time that the archive or the call that sets it cannot carry: past the range of Chtimes for a file, past 64 bits of nanoseconds for a symlink |
| LayerRoundTrip.SameCapabilityIff | docker/pkg/archive/diff.go:166-176 | the capability is the new one, except exactly for a directory in both trees that had one and has none any more |
| LayerRoundTrip.ContentsFollowList | docker/pkg/archive/changes.go:276-292 | contents and link targets are the new ones where the list has an entry and the old ones everywhere else |
| LayerTransfer.FieldsComeBack | docker/pkg/archive/diff.go:165-202 | at every path of the result, type, mode, owner and device number are the new tree's, and for what is no directory the size |
| LayerTransfer.TimesComeBack | docker/pkg/archive/diff.go:215-220 | at every path: which second the result has, for listed files and directories the archived time itself or the epoch, for links the archived second, and for what is not listed the time it had |
| LayerTransfer.AppliesIffLinksStay | docker/pkg/archive/archive.go:634-646 | unpacking succeeds iff every changed link, climbed from where it lies and followed down, leads to a path whose text begins with that of the destination |
| LayerTransfer.UnpackedSize | docker/pkg/archive/diff.go:55-55 | for any layer: the returned size is the sum of the header sizes, or 0 with an error |
| LayerTransfer.SizeIsContents | docker/pkg/archive/diff.go:222-222 | for an exported difference it is the number of bytes of the listed files |
| LayerTransfer.TransferByLayer | docker/pkg/archive/changes.go:326-433 | collect both trees, compare, export and unpack in one run: succeeds iff no changed link leads outside; then same paths, same fields, contents by the list, the size in bytes, and with times that survive no stat difference anywhere |
| LinkTargets.RefusedIff | docker/pkg/archive/archive.go:634-646 | a target whose cleaned form climbs k directories is refused iff the text of the path it leads to does not begin with that of the destination; never when the link lies at least k deep |
| LinkTargets.RefusedByComponents | docker/pkg/archive/archive.go:640-642 | the same by components: a link out of the destination is let through exactly when it comes back to its place, to a name that begins like its own |
| LinkTargets.UpwardLinkNotRefused | docker/pkg/archive/archive.go:634-646 | a target written as k times ".." and then names is accepted when the link lies at least k deep |
| Text.ResolvesTo | docker/pkg/archive/archive.go:636-639 | resolving a relative path from an absolute one is cleaning it on its own, climbing and going down |
| Text.CleaningDrops | docker/pkg/archive/archive.go:636-639 | cleaning drops empty components, dots, and a name with the ".." behind it |
| Text.CleanedForm | docker/pkg/archive/archive.go:636-639 | what is left is some "..", none for an absolute path, and then names |
| LayerEntries.EntryEffect | docker/pkg/archive/diff.go:86-211 | one ordinary entry on any destination, path by path: a directory over a directory sets attributes and keeps what is below, anything else replaces, missing parents are made with mode 0600, nothing else changes |
| LayerEntries.WhiteoutEffect | docker/pkg/archive/diff.go:132-164 | one whiteout on any destination, path by path |
| LayerEntries.MadeFrom | docker/pkg/archive/archive.go:583-700 | which attributes of the header a file made from scratch has |
| LayerEntries.BookkeepingPassedOver | docker/pkg/archive/diff.go:98-119 | AUFS bookkeeping at the top level is counted and passed over |
| LayerEntries.NamesStayInside | docker/pkg/archive/diff.go:120-129 | a layer that is applied to the end has no name with ".." in it |
| LayerExamples.RefusedLinkExample | docker/pkg/archive/archive.go:634-646 | a link with more ".." than directories above it makes the whole layer fail |
| LayerExamples.LostSecondExample | docker/pkg/archive/changes.go:73-82 | a time in the later half of a second comes back different through a writer that rounds, which the comparison, written for truncation, reports as a change |
| LayerExamples.WrappedLinkTimeExample | docker/pkg/archive/time_linux.go:11-19 | a new symlink from the year 2286 comes back with a time of 1702 |
| LayerExamples.KeptCapabilityExample | docker/pkg/archive/diff.go:166-176 | a directory whose capability was dropped keeps it |
| OpaqueWhiteouts.KeepUnpackedAt | docker/pkg/archive/diff.go:139-154 | the walk keeps a path iff it and every directory on the way were unpacked |
| OpaqueWhiteouts.OpaqueStep | docker/pkg/archive/diff.go:134-157 | one opaque entry: below its directory a path survives iff it and all directories between are unpacked paths; nothing changes elsewhere |
| OpaqueWhiteouts.OpaqueKeepsOwnIff | docker/pkg/archive/diff.go:132-157 | the survivors are exactly the previously existing unpacked paths iff every directory below that holds an unpacked path is one itself |
| OpaqueWhiteouts.DroppedFileExample | docker/pkg/archive/diff.go:89-95 | a directory made on the way is no unpacked path: the opaque entry then removes a file of its own layer |
| OpaqueWhiteouts.ListedDirsSuffice | docker/pkg/archive/diff.go:211-211 | a layer in which every file comes after entries for its directories meets that condition at every point |
| Walker.ReadDirNamesHas | docker/pkg/archive/changes_linux.go:216-260 | the listing has every name of the directory once, in order, with its inode |
| Walker.MergeNames | docker/pkg/archive/changes_linux.go:136-178 | the two-index loop yields the sorted union of both listings without the names that have the same inode on the same device |
| Walker.TreeWalker.Register | docker/pkg/archive/changes_linux.go:66-102 | both files are recorded under their parents; the missing-parent error does not occur |
| Walker.TreeWalker.Walk | docker/pkg/archive/changes_linux.go:92-202 | the walk records both trees without the shared entries and what is below them, and never fails |
| Walker.CollectFileInfoForChanges | docker/pkg/archive/changes_linux.go:40-62 | the two results are the two pruned trees |
| Walker.EntryAgrees | docker/pkg/archive/changes_linux.go:159-162 | at every path, the pruned trees and the full ones have the same entry or none, if entries taken for the same file are the same all the way down |
| Walker.PruningLosesNothing | docker/pkg/archive/changes_linux.go:33-39 | a list is a complete list of the differences of the pruned trees iff it is one of the full trees |
| Walker.ChangesDirs | docker/pkg/archive/changes.go:345-363 | the pruned walk followed by the comparison finds every change of the full trees |
| Walker.PrunedHas | docker/pkg/archive/changes_linux.go:136-178 | in inodes: the walk records a path iff on the way to it no entry has the same inode number as the other tree's in directories on the same device; with its attributes |
| Walker.FaithfulIff | docker/pkg/archive/changes_linux.go:33-39 | the condition of PruningLosesNothing in inodes and contents: entries with the same inode number in directories on the same device are the same below |
| Overlay.TarAppender.AddTarFile | docker/pkg/archive/archive.go:528-552 | what is written for one file, header rewritten in place and marker after it, unpacks to that file again wherever there is room for it, and to nothing else |
| Overlay.OwnEntries | docker/pkg/archive/archive_linux.go:25-95 | unpacking a node's own entries puts the node there, less what a whiteout device loses, and keeps the recorded directory times right |
| Overlay.WithoutOptions | docker/pkg/archive/archive.go:929-974 | the option tests of the loop change nothing when no option is set |
| Overlay.OverlayDisk.UnpackEntry | docker/pkg/archive/archive.go:927-1010 | one turn of the loop with the exclusions, the parent made first and the refusal to put a directory over something else or the other way round |
| OverlayEntries.EntryEffect | docker/pkg/archive/archive.go:936-1010 | one ordinary entry on any destination, path by path: a directory over a directory merges, anything else replaces, missing parents are made with mode 0777, nothing else changes |
| OverlayEntries.EntryCannotFail | docker/pkg/archive/archive.go:936-1010 | below existing directories an ordinary entry is written unless it is a refused link |
| OverlayEntries.WhiteoutEffect | docker/pkg/archive/archive_linux.go:79-92 | one whiteout on any destination, path by path: a 0/0 device where nothing may have been |
| OverlayEntries.OpaqueEffect | docker/pkg/archive/archive_linux.go:71-76 | one opaque marker on any destination, path by path: its directory gets the flag |
| OverlayEntries.HeadersWritten | docker/pkg/archive/archive_linux.go:25-65 | what is written for a device, an opaque directory and anything else, in names, modes and owners |
| OverlayEntries.ExcludedLeftOut | docker/pkg/archive/archive.go:929-933 | excluding entries is unpacking an archive without them |
| OverlayEntries.NamesStayInside | docker/pkg/archive/archive.go:945-955 | an archive that is unpacked has no name with ".." but excluded ones |
| OverlayEntries.OverwriteRefusedIff | docker/pkg/archive/archive.go:963-974 | with the option, an entry is refused iff a directory stands where it is none or the other way round |
| Overlay.PackAndUnpack | docker/pkg/archive/archive_linux.go:25-95 | pack with the in-place converter and unpack in place, in one run: no error, and exactly the expected tree |
| Overlay.OverlayDisk.UnpackArchive | docker/pkg/archive/archive.go:902-1021 | the loop of Unpack with the overlay converter leaves the tree and error of the entry-by-entry unpacking under any exclusions and overwrite option, directory times last |
| Overlay.OverlayRoundTrip | docker/pkg/archive/archive_linux.go:25-95 | packing a tree of directories with opaque flags, files and 0/0 devices and unpacking it into an empty directory succeeds and gives exactly the expected tree |
| Overlay.OverlayRestores | docker/pkg/archive/archive_linux.go:25-95 | path by path: same paths, types, owners, contents, and below the root the same opaque flags; the root keeps its own attributes |
| StdCopy.LengthField | docker/pkg/stdcopy/stdcopy.go:58-59 | the four length bytes read back as the length modulo 2^32 |
| StdCopy.EncodedBytes | docker/pkg/stdcopy/stdcopy.go:49-72 | the bytes of a frame: stream number, three zeros, length modulo 2^32 with its highest byte first, payload |
| StdCopy.StreamsByNumber | docker/pkg/stdcopy/stdcopy.go:124-192 | in bytes: frames of type 0 and 1 go to one writer, of type 2 to the other, type 3 ends with its payload as error, anything else ends at once |
| StdCopy.TailIsDropped | docker/pkg/stdcopy/stdcopy.go:108-122 | a stream that ends inside a header or a frame delivers nothing of it and is no error |
| StdCopy.RefusedWriteEnds | docker/pkg/stdcopy/stdcopy.go:175-183 | a payload that its writer refuses or takes in part ends the copying with the count 0 |
| StdCopy.WriteFrame | docker/pkg/stdcopy/stdcopy.go:49-72 | one Write sends header and payload in one piece and reports how much of the payload went out and whether the writer failed; without a writer it fails, without a payload it does nothing |
| StdCopy.FillTo | docker/pkg/stdcopy/stdcopy.go:108-122 | reading fills the buffer up to what is needed, or says that the source ended or broke, and loses no byte; there is always room to read into |
| StdCopy.ReadFrame | docker/pkg/stdcopy/stdcopy.go:108-168 | growing the buffer as needed, it finds exactly the frame at the front of what is buffered and still to come, or why there is none |
| StdCopy.StdCopy | docker/pkg/stdcopy/stdcopy.go:97-193 | however the source is cut into reads, the loop over the sliding buffer delivers and returns what the recursive frame parser says; if the source breaks, the writers have the payloads of some whole frames at the front |
| StdCopy.DemuxAppend | docker/pkg/stdcopy/stdcopy.go:107-192 | parsing goes on after delivered whole frames as if they had not been there |
| StdCopy.DeliversFrames | docker/pkg/stdcopy/stdcopy.go:97-193 | writers that take everything receive exactly the payloads addressed to them, in order, up to the first bad header, system error or incomplete tail |
| StdCopy.FramesOfMuxed | docker/pkg/stdcopy/stdcopy.go:49-72 | cutting the output of any sequence of writes shorter than 2^32 into frames gives the writes back |
| StdCopy.FramesOfMuxedIff | docker/pkg/stdcopy/stdcopy.go:49-72 | for any sequence of writes: cutting its output into frames gives the writes back iff each is shorter than 2^32 bytes and goes to a stream that is known |
| StdCopy.FramesBegin | docker/pkg/stdcopy/stdcopy.go:58-59 | up to the first write that is too long the frames are the writes |
| StdCopy.TooLongIsCut | docker/pkg/stdcopy/stdcopy.go:58-59 | the first payload of 2^32 bytes or more arrives as its first bytes, as many as its length modulo 2^32 |
| StdCopy.WholeLengthLost | docker/pkg/stdcopy/stdcopy.go:58-59 | of a write of exactly 2^32 bytes nothing is left in its frame |
| StdCopy.OneWriteIff | docker/pkg/stdcopy/stdcopy.go:58-59 | a single write comes through whole iff its payload is shorter than 2^32 bytes |
| StdCopy.Mux | docker/pkg/stdcopy/stdcopy.go:49-72 | a loop of writes sends the concatenation of their frames |
| StdCopy.Transfer | docker/pkg/stdcopy/stdcopy.go:97-193 | round trip: any sequence of writes arrives at each writer as the concatenation of its own payloads, with the total as count and no error |
| PipeModel.WriteLoopFacts | docker/pkg/ioutils/bytespipe.go:54-108 | a stretch of Write up to its end or to Wait appends a prefix of its argument to the contents, keeps the length field right and stays under the size bound |
| PipeModel.WriteResumeFacts | docker/pkg/ioutils/bytespipe.go:87-103 | and so does Write after it has waited, also when another writer has put a new last buffer there meanwhile |
| PipeModel.DrainFacts | docker/pkg/ioutils/bytespipe.go:145-163 | Read takes the oldest bytes, as many as asked for or as there are |
| PipeModel.StepKeeps | docker/pkg/ioutils/bytespipe.go:54-168 | every step of a writer, reader or closer keeps all invariants |
| PipeModel.EveryRun | docker/pkg/ioutils/bytespipe.go:54-168 | in every interleaving: bytes handed out followed by bytes held are the bytes taken in, in order; the length field is their number; less than 2,000,000 are held |
| PipeModel.NothingAfterClose | docker/pkg/ioutils/bytespipe.go:59-62 | after a close no byte is taken in any more, and the pipe stays closed |
| PipeModel.CloseSets | docker/pkg/ioutils/bytespipe.go:111-121 | closing sets the error also at a closed pipe, wakes everybody, and leaves the contents |
| PipeModel.ReadReplies | docker/pkg/ioutils/bytespipe.go:130-168 | Read hands out the front of the contents; it returns the close error only when the pipe is closed with it and holds nothing |
| PipeModel.SleepingReaderMissesDataIff | docker/pkg/ioutils/bytespipe.go:87-92 | a reader that sleeps unwoken misses bytes iff a writer sleeps as well, since Write waits without a broadcast |
| PipeModel.WriteSleepsIff | docker/pkg/ioutils/bytespipe.go:58-103 | Write goes to sleep iff its argument is longer than a budget that depends on the last buffer and the fill level |
| PipeModel.LostWakeUpIff | docker/pkg/ioutils/bytespipe.go:87-92 | a reader asleep at an empty pipe is left asleep by the next write, with bytes to read, iff that write is longer than the budget |
| PipeModel.ReaderAndWriterStuck | docker/pkg/ioutils/bytespipe.go:87-92 | a reader first and a write of two million bytes second leaves both asleep with nobody left to wake them |
| PipeModel.BudgetOfNewPipe | docker/pkg/ioutils/bytespipe.go:14-21 | on a new pipe the budget is 1,048,512 bytes |
| BytesPipe.FixedBuffer.Write | docker/pkg/ioutils/buffer.go:19-30 | copies what fits behind the bytes already written and reports a full buffer iff something did not fit |
| BytesPipe.FixedBuffer.Read | docker/pkg/ioutils/buffer.go:32-36 | hands out the oldest unread bytes |
| BytesPipe.FixedBuffer.Reset | docker/pkg/ioutils/buffer.go:46-50 | leaves an empty buffer of the same capacity |
| BytesPipe.BufPools.GetBuffer | docker/pkg/ioutils/bytespipe.go:180-189 | hands out an empty buffer of the asked capacity that no pipe holds |
| BytesPipe.BufPools.ReturnBuffer | docker/pkg/ioutils/bytespipe.go:170-178 | takes a buffer out of use, emptied, keeping the pools consistent |
| BytesPipe.BytesPipe.Append | docker/pkg/ioutils/bytespipe.go:98-103 | adds an empty buffer at the end; what other pipes hold is untouched |
| BytesPipe.BytesPipe.WriteUnderLock | docker/pkg/ioutils/bytespipe.go:54-103 | the loop on arrays and pools does to the pipe what the model step does |
| BytesPipe.BytesPipe.WriteAfterWait | docker/pkg/ioutils/bytespipe.go:86-103 | the same for Write after Wait |
| BytesPipe.BytesPipe.ReadLoop | docker/pkg/ioutils/bytespipe.go:145-163 | the copying loop, with empty buffers going back to the pools, takes what the model takes |
| BytesPipe.BytesPipe.ReadUnderLock | docker/pkg/ioutils/bytespipe.go:130-168 | the same for Read up to Wait |
| BytesPipe.BytesPipe.ReadAfterWait | docker/pkg/ioutils/bytespipe.go:137-168 | the same for Read after Wait |
| BytesPipe.BytesPipe.CloseWithError | docker/pkg/ioutils/bytespipe.go:111-121 | sets the error to return, end of stream if none is given |
| BytesPipe.NewBytesPipe | docker/pkg/ioutils/bytespipe.go:45-50 | a new pipe is the start state, with a buffer that was in no other pipe |
| BytesPipe.OutOfReach | docker/pkg/ioutils/bytespipe.go:25-26 | what the methods of one pipe may change contains nothing of another pipe on the same pools |
| BytesPipe.OtherPipeKept | docker/pkg/ioutils/bytespipe.go:25-26 | so the other pipe stays valid and keeps its contents |
| GlobPatterns.Compile | docker/pkg/fileutils/fileutils.go:142-209 | the scanner loop writes the anchored translation of the pattern |
| GlobPatterns.ParseTranslated | docker/pkg/fileutils/fileutils.go:142-209 | the text written is a regular expression, read piece by piece as intended |
| GlobPatterns.CompiledAccepts | docker/pkg/fileutils/fileutils.go:142-218 | for every path: what the compiled expression matches, which is the meaning of the pattern with every "**" stopping at newlines |
| GlobPatterns.AcceptsOrNewline | docker/pkg/fileutils/fileutils.go:169-177 | that meaning and the intended one are the same where no "**" can come upon a newline |
| GlobPatterns.CompiledMeansGlob | docker/pkg/fileutils/fileutils.go:142-218 | so there the compiled expression matches a path iff the pattern does, "**" standing for directories, "*" and "?" stopping at slashes |
| GlobPatterns.DoubleStarAccepts | docker/pkg/fileutils/fileutils.go:169-171 | the pattern "**" is meant to accept everything and accepts exactly what has no newline |
| IgnorePatterns.Pattern.Match | docker/pkg/fileutils/fileutils.go:129-140 | compiled at first use, the answer is that of the expression every time |
| IgnorePatterns.PatternMatcher.MatchOrParent | docker/pkg/fileutils/fileutils.go:78-88 | the pattern against the path, or against the directory above it at the depth of the pattern |
| IgnorePatterns.PatternMatcher.Matches | docker/pkg/fileutils/fileutils.go:65-100 | the loop answers whether the last covering pattern is no exclusion |
| IgnorePatterns.NewPatternMatcher | docker/pkg/fileutils/fileutils.go:27-61 | trims and cleans each pattern, refuses exactly lists with a lone "!", and otherwise reads the patterns in order without the empty ones |
| PatternTexts.OneRule | docker/pkg/fileutils/fileutils.go:38-57 | each text that is not empty gives one rule: an exclusion iff it begins with '!', with the text without that mark as pattern |
| PatternTexts.RulesInOrder | docker/pkg/fileutils/fileutils.go:33-60 | the rules are in the order of the texts |
| PatternTexts.Trimmed | docker/pkg/fileutils/fileutils.go:35-38 | only space is trimmed, and all of it |
| PatternTexts.PreparedIs | docker/pkg/fileutils/fileutils.go:35-39 | whatever space stands around a text, it is looked at without it and cleaned |
| PatternTexts.CleanedReadsBack | docker/pkg/fileutils/fileutils.go:39-39 | a cleaned text reads back as some "..", none after a slash at the front, and then names |
| PatternTexts.CleanIsIdempotent | docker/pkg/fileutils/fileutils.go:39-39 | cleaning twice is cleaning once |
| PatternTexts.LastTextWins | docker/pkg/fileutils/fileutils.go:65-100 | a path is ignored iff the last text that covers it has no '!' in front |
| PatternTexts.StarButB | docker/pkg/fileutils/fileutils.go:41-48 | "*" and then "!b" ignores everything at the top but b |
| IgnorePatterns.LastMatchWins | docker/pkg/fileutils/fileutils.go:71-93 | ignored iff there is a covering pattern that is no exclusion with no covering pattern after it |
| IgnorePatterns.GlobDepth | docker/pkg/fileutils/fileutils.go:178-184 | without "**" a pattern matches paths with its own number of slashes only |
| IgnorePatterns.ParentRule | docker/pkg/fileutils/fileutils.go:83-88 | such a pattern covers what it matches and everything below, nothing else |
| TarWalk.WalkState.Visit | docker/pkg/archive/archive.go:804-894 | one call back adds the path iff wanted and new, and skips a directory iff it is ignored and no exclusion begins with it |
| TarWalk.WalkState.HasExclusionBelow | docker/pkg/archive/archive.go:848-862 | finds an exclusion that begins with the directory iff there is one |
| TarWalk.WalkState.Walk | docker/pkg/archive/archive.go:804-894 | the walk adds what the selection function lists, each path once |
| TarWalk.SelectedIff | docker/pkg/archive/archive.go:821-871 | for any patterns: a path is selected iff it is there, is wanted, and no directory above it was pruned |
| TarWalk.IgnoredBelow | docker/pkg/archive/archive.go:842-865 | below an ignored directory that no exclusion begins with everything is ignored (no "**", exclusions without wildcards) |
| TarWalk.PruningIsExact | docker/pkg/archive/archive.go:836-866 | so a wanted path is always reached |
| TarWalk.AddedOnce | docker/pkg/archive/archive.go:868-871 | no path is added twice and none is lost over several includes |
| TarWalk.ArchiveIsExact | docker/pkg/archive/archive.go:798-871 | the archive holds each path at or below an include that is the include or is not ignored, once, and nothing else |
| TarWalk.AllSelectedByTexts | docker/pkg/archive/archive.go:798-871 | for any texts: a path is selected iff it is there and not ignored, or the include itself, and no directory on the way down is ignored without a text beginning "!" and its name |
| TarWalk.TarWithOptions | docker/pkg/archive/archive.go:728-896 | a whole run that reads the patterns first: refuses exactly a lone "!", otherwise adds what the texts select, each path once, and for texts without "**" and wildcard exclusions exactly what they do not ignore |
| TarWalk.DoubleStarPrunesTooMuch | docker/pkg/archive/archive.go:847-850 | with "**/b" the directory b is skipped although b/c is not ignored |
| TarWalk.WildcardExclusionPrunesTooMuch | docker/pkg/archive/archive.go:854-862 | an exclusion with a wildcard does not keep open the directories it could match |
| EventModel.WithoutOne | docker/event.go:136-142 | filtering takes one listener away when the list has no duplicates |
| EventModel.StepIsSafe | docker/event.go:121-198 | no step sends on a closed channel, closes one twice, takes the WaitGroup below zero or waits on it with something left |
| EventModel.StepKeeps | docker/event.go:121-309 | every step of every caller keeps the invariants |
| EventModel.EveryRunIsSafe | docker/event.go:121-371 | in every interleaving from a new monitor all steps are safe; the count is the number of distinct listeners plus active sends; the last-seen time is the latest one since enabling |
| EventModel.EveryListenerOnce | docker/event.go:283-301 | in every interleaving, from its begin to its end one sendEvent sends to every registered listener exactly once and in order, without a listener to errC, and with the monitor off nowhere; the listeners stay registered meanwhile |
| EventModel.DisableCloses | docker/event.go:184-198 | disabling closes every listener and the monitor's two channels, and no other |
| EventModel.HijackSendsIff | docker/event.go:353-371 | a hijacker sends iff the monitor is on with the channel it came with |
| EventModel.LatestIs | docker/event.go:303-309 | the last-seen time is one that came in, or zero, and none is later |
| EventModel.AddedOpenIff | docker/event.go:148-154 | adding a channel and disabling later is safe iff the channel was open |
| EventMonitor.EventMonitoringState.ListenerExists | docker/event.go:162-169 | finds the listener iff it is in the list |
| EventMonitor.EventMonitoringState.AddListener | docker/event.go:121-130 | appended and counted once; refused when already there |
| EventMonitor.EventMonitoringState.RemoveListener | docker/event.go:132-146 | removed from the list and from the count |
| EventMonitor.EventMonitoringState.CloseListeners | docker/event.go:148-154 | every listener is closed once and its count given back |
| EventMonitor.EventMonitoringState.EnableEventMonitoring | docker/event.go:171-182 | two new channels and a zero time, or nothing when already on |
| EventMonitor.EventMonitoringState.DisableEventMonitoring | docker/event.go:184-198 | Wait finds a zero count, and all channels are closed for the first time |
| EventMonitor.EventMonitoringState.UpdateLastSeen | docker/event.go:303-309 | the time only grows |
| EventMonitor.EventMonitoringState.SendEvent | docker/event.go:283-301 | on with listeners: each gets the event offered once and in order; on without: errC; off: nothing; every channel is open and the count restored |
| EventMonitor.EventMonitoringState.SendFromHijack | docker/event.go:353-371 | sends iff the monitor is on and the channel is the current one, which then is open |
| IdMaps.CreateIDMap | docker/pkg/idtools/idtools.go:205-220 | one entry per range in the order of starts, container ids running on without a gap |
| IdMaps.ToHost | docker/pkg/idtools/idtools.go:92-106 | the first entry with the container id decides; without a map the identity |
| IdMaps.ToContainer | docker/pkg/idtools/idtools.go:76-90 | the first entry with the host id decides; without a map the identity |
| IdMaps.HostDomain | docker/pkg/idtools/idtools.go:95-106 | the mapped container ids are consecutive, as many as the lengths add up to |
| IdMaps.BackFromHost | docker/pkg/idtools/idtools.go:79-106 | toContainer undoes toHost on disjoint ranges |
| IdMaps.BackFromContainer | docker/pkg/idtools/idtools.go:79-106 | toHost undoes toContainer |
| IdMaps.CreatedMap | docker/pkg/idtools/idtools.go:205-220 | of a map made from disjoint ranges: domain, range, and both translations each other's inverse |
| IdMaps.ToContainerUndoesToHostIff | docker/pkg/idtools/idtools.go:159-186 | for pairs: ToContainer undoes ToHost iff neither id equals the host id of root, unless that is 0 |
| IdMaps.TakenForRootExample | docker/pkg/idtools/idtools.go:159-186 | with root at 100 on the host, the container user 100 is taken for root and comes back as 0 |
| SubordinateRanges.FindNextRangeStart | docker/pkg/idtools/usergroupadd_linux.go:149-157 | the loop computes the start after all ranges |
| SubordinateRanges.NeverBelowDefault | docker/pkg/idtools/usergroupadd_linux.go:150-155 | the start never moves back |
| SubordinateRanges.AllPassed | docker/pkg/idtools/usergroupadd_linux.go:149-167 | every range of a sorted disjoint list ends up behind the block, ahead of it, or inside it unseen |
| SubordinateRanges.BlockFreeIff | docker/pkg/idtools/usergroupadd_linux.go:149-167 | the block found is disjoint from every range iff none lies strictly inside it |
| SubordinateRanges.BlockFreeMeans | docker/pkg/idtools/usergroupadd_linux.go:159-167 | free means that none of the 65536 ids from the start on is in a range |
| SubordinateRanges.NothingHiddenIff | docker/pkg/idtools/usergroupadd_linux.go:149-167 | walking gaps and lengths of a sorted list tells whether the search will end with a range inside its block |
| SubordinateRanges.BlockFreeBeforehandIff | docker/pkg/idtools/usergroupadd_linux.go:149-167 | so the block is free iff that walk over the list, done before the search, finds nothing hidden |
| SubordinateRanges.LengthsThatSuffice | docker/pkg/idtools/usergroupadd_linux.go:159-167 | the block is free for all lists whose ranges have at least a given length iff that length is at least 65535 |
| SubordinateRanges.ShortRangeMissed | docker/pkg/idtools/usergroupadd_linux.go:159-167 | any shorter range just behind the default start is missed |
| TmpfsOptions.MergeTmpfsOptions | docker/pkg/mount/flags.go:75-115 | fails iff some option is refused; else the last option for each key, in the order of the list, without "defaults" |
| TmpfsOptions.MergedHasKeys | docker/pkg/mount/flags.go:95-111 | merging decides everything that the list decides |
| TmpfsOptions.MergedKeysDiffer | docker/pkg/mount/flags.go:95-111 | and decides nothing twice |
| TmpfsOptions.MergeIsIdempotent | docker/pkg/mount/flags.go:75-115 | merging a merged list changes nothing |
| TmpfsOptions.WordSwitch | docker/pkg/mount/flags.go:125-138 | a switch is on in the mount word iff the last option about it turns it on |
| TmpfsOptions.WordMode | docker/pkg/mount/flags.go:125-138 | a propagation bit is on iff some option sets it |
| TmpfsOptions.AccessTexts | docker/pkg/mount/flags.go:11-49 | which bit each of "ro", "rw", "nosuid", "suid" sets or clears in the word of any list |
| TmpfsOptions.ExecutionTexts | docker/pkg/mount/flags.go:11-49 | the same for "nodev", "dev", "noexec", "exec" |
| TmpfsOptions.DataTexts | docker/pkg/mount/flags.go:51-60 | which names before an '=' are taken |
| TmpfsOptions.MergeKeepsWordIff | docker/pkg/mount/flags.go:90-101 | merging keeps the mount word iff no dropped propagation option has a bit that the last one lacks |
| TmpfsOptions.ParseOptions | docker/pkg/mount/flags.go:119-140 | the loop over the parts computes the mount word and joins the other parts |
| TmpfsOptions.DataInOrder | docker/pkg/mount/flags.go:119-140 | the data are the options that are no flags, in order |
| TmpfsOptions.ParseTmpfsOptions | docker/pkg/mount/flags.go:143-152 | accepts iff every data part has a known name |
| TmpfsOptions.DataIsValidIff | docker/pkg/mount/flags.go:119-152 | the data of a list of parts is accepted iff each part is a flag or has a known name |
| TmpfsOptions.ReadsBackIff | docker/pkg/mount/flags.go:119-152 | for any list: its joined form is accepted iff every piece between commas of every option is a flag or has a known name |
| TmpfsOptions.AcceptedIsReadable | docker/pkg/mount/flags.go:75-115 | what merging has accepted is readable, but for what follows a comma |
| TmpfsOptions.MergeAndRead | docker/pkg/mount/flags.go:75-152 | merge, join and read in one run: succeeds iff merging does and all pieces can be read; then word and data are those of the pieces |
| TmpfsOptions.CommaExample | docker/pkg/mount/flags.go:103-106 | a memory policy for two nodes is accepted by merging and refused by reading |
| TmpfsOptions.DroppedModeExample | docker/pkg/mount/flags.go:90-101 | merging "rshared" and "private" loses the bit that makes the second recursive |
| RemoveAll.EnsureRemoveAll | docker/pkg/system/rm.go:27-83 | ends with the first attempt that has a verdict, after at most 51 attempts for each path that can be named plus one, whatever the mount calls answer |
| RemoveAll.VerdictMeans | docker/pkg/system/rm.go:37-80 | what an attempt comes to: success iff everything is gone or the directory itself is missing for the first time; another attempt iff another path is missing for the first time, or one that is not stuck has been busy other than fifty times before; else its error |
| RemoveAll.LeftAfter | docker/pkg/system/rm.go:48-80 | each attempt that is not the last uses up exactly one of the attempts left |
| RemoveAll.NotExistEscapesIff | docker/pkg/system/rm.go:48-75 | the verdict on an attempt is a does-not-exist error iff a path other than the directory itself is reported missing for the second time, or a path still mounted cannot be unmounted for that reason, or os.RemoveAll gives such an error without a path |
| RemoveAll.MissingTwice | docker/pkg/system/rm.go:26-26 | the first can happen, contrary to the comment |
| RemoveAll.HiddenMount | docker/pkg/system/rm.go:69-75 | and so can the second: a mount that another one has come to hide |

## Left out

- Changes.Differ.AddChanges: the `added` marks are a set of paths beside the trees instead of a field in each node, and a node's path is passed down instead of being read off parent links; marks left over from an earlier comparison on the same trees are excluded by the precondition.
- LayerUnpack.Disk.UnpackLayer: where the real calls would follow a symlink on the way to a path, an entry is named just `..`, or a whiteout names `.` or `..`, the model stops with an error of its own; names that leave the destination are refused before a parent is made for them. Layers exported from the trees considered never come there. The directory for AUFS hard links is left out, the times of directories made on the way are arbitrary, and file systems that clamp or refuse a time are not considered.
- LayerExport.ExportChanges: whether the archive writer keeps, truncates or rounds nanoseconds is a parameter, and what else its library does to a time, the zero time for one, is not modelled; the byte format of headers, access and change times, and user names are not modelled.
- IdMaps.CreateIDMap: a sorted copy is made instead of reordering the caller's list in place; `LayerExport.ExportChanges` does the same with the change list.
- LayerRoundTrip.SamePathsAndTypes: trees of directories, regular files and symlinks without hard links, whose names do not begin with `.wh.`.
- LayerRoundTrip.SameStatIff: times of directories are not compared, as in the comparison itself.
- Overlay.OverlayRestores: mode and times of a whiteout device are not kept by the code, so nothing is said about them; devices with another number than 0/0 are not in the trees considered.
- Walker.TreeWalker.Walk: on a static file system; the tolerance for files that vanish during the walk is not modelled.
- PipeModel.EveryRun: safety only; which sleeper a broadcast lets run first is arbitrary. Capacities are mathematical integers.
- BytesPipe.BytesPipe.WriteUnderLock: the broadcast at the end of a call is a step of the state machine and not of this method.
- BytesPipe.BufPools.GetBuffer: buffers that the runtime drops from a pool are the same as buffers never handed out again.
- GlobPatterns.Compile: for a `/` separator; the byte order mark that the scanner drops at the front of a text is not modelled, nor are bracket classes and unescaped regular expression operators.
- IgnorePatterns.NewPatternMatcher: for patterns that are plain once trimmed and cleaned; the syntax check by `filepath.Match` never fails on those.
- TarWalk.TarWithOptions: the source is a directory, it is not itself included, no include is reached through a symlink, and nothing is renamed; errors while writing the archive are not modelled.
- EventModel.EveryRunIsSafe: sends of `eventHijack` on `errC`, which take no lock, and deadlocks: a send that blocks on a full channel while it holds the read lock is not a step of the model.
- EventMonitor.EventMonitoringState.SendEvent: whether a listener's buffer has room is not modelled; the event is offered.
- IdMaps.ToContainerUndoesToHostIff: for maps made from disjoint ranges, or absent ones.
- TmpfsOptions.MergeKeepsWordIff: a mount word is the set of its bits; the numeric values of the Linux constants do not matter beyond each switch being one bit and each propagation mode one bit with or without `MS_REC`.
- RemoveAll.EnsureRemoveAll: the pause between attempts and the unmounting before the first one.
- Overlay.OverlayDisk.UnpackArchive: remapping of owners and the ownership option.
- Collect.InfoCollector.Walk: on a static file system, so that no call of the walk fails.
- Hard links, extended attributes other than the capability and the opaque flag, id remapping inside archives, compression and buffering.
- The HTTP side of the event monitor, the client API, and everything in `dockertest.go`.
- Windows, FreeBSD and Darwin variants, terminal progress display, option holders and plain type files: platform code or easy members.
