# The SFTP view of cloud storage: file handle and namespace

The server presents cloud storage spaces over SFTP (version 2 of the protocol, draft-ietf-secsh-filexfer-02). This
project models the two parts of `pkg/vfs` in which the state lives and proves what they keep.

**The open file.** A handle caches a whole file: a byte slice, a size, a validity flag and an ETag behind a
`sync.RWMutex`. Reads are served from the cache; writes and truncations change it and upload all of it, with If-Match
(section 13.1.1 of RFC 9110) on the last ETag seen. It is modelled twice and the two are connected.

- `FileHandler.dfy` is the object itself: a backing array, a length that may be shorter than it, the Go fields, 64-bit
  offsets, loops that copy. Every method is proved equal to a value function of `Handler.dfy`. `Effects.dfy` says
  what each call does, byte by byte and in terms of neither; `LoneClient.dfy` proves what sequences of those calls do, against the simple file of `Bytes.dfy`; `ColdWrites.dfy` what writes on a cold handle
  do, `Acknowledgements.dfy` which calls are acknowledged, and `RoundTrips.dfy` upload followed by download.
- `Protocol.dfy` is a state machine: any number of workers with program counters, one handle, one mutex, one remote
  file with all its versions, and a step for other clients that is possible at any moment. Its steps use the same
  functions of `Handler.dfy`; a slice expression out of range panics, and a copy that does not fit takes what fits. A log
  records what took effect, in order. `Locking.dfy`, `Progress.dfy`, `Linearizability.dfy`, `Bounds.dfy`, `Returns.dfy`,
  `Conflicts.dfy`, `ColdStart.dfy` and `KeptRequests.dfy` prove invariants over all runs. What a theorem assumes of the
  surroundings is a value of type `Rely`; `Traces.dfy`, `Thefts.dfy` and `LostUpdates.dfy` give the runs that fail without
  these hypotheses, and without that of a warm handle.
- `SoloRuns.dfy` connects them: a worker of the machine that runs alone can end, and can only end, where the sequential
  model, and so the class, says. `Runs.dfy` is how proofs build runs step by step.

**The namespace.** `Paths.dfy` and `Spaces.dfy` split an absolute path and resolve its first element to a space;
`Gateway.dfy` is the assumed storage, a tree per space; `Namespace.dfy` is the check-then-act commands as methods of an
object, with what single commands and whole runs of them do; `ServedRequests.dfy` is what a client is told; `Interference.dfy` and `RenameRaces.dfy` let other sessions
move between a command's gateway calls; `Listings.dfy` is listing, stat and paged reading of a directory.

## What is assumed

- Version `k` of a remote file has ETag `k + 1`; the empty ETag is 0. So every version has a fresh, non-empty ETag.
- A PUT that reports failure did not change the file. A reply may lack an ETag.
- `checkedAtCommit`: the storage enforces If-Match when it commits. The handler passes the condition only to the request
  that initiates an upload; `Traces.CheckBeforeTransferIsNotEnough` shows that the assumption is needed.
- TouchFile creates a missing file and never changes an existing one.
- An answered Stat or ListContainer is truthful; only directories can be listed.
- The gateway's Delete takes the whole subtree. Deleting or moving a space's root is refused, and so is a move between a
  path and one above or below it. Whether Move replaces an existing target is a parameter (`moveOverwrites`).
- Reading `cacheValid` without the lock is atomic.

## What the code does that its comments or its users may not expect

- `WriteAt` ignores every download error, although its comment speaks of "not found" only (filehandler.go:76-78). An
  acknowledged write can then replace bytes outside its range: `ColdWrites.BytesOutsideTheWrite` says exactly when, for
  every handle, and `ColdWrites.IgnoredDownloadErrorZeroesPrefix` is an instance. The handle stays cold but keeps what
  was written, and the next write starts from that (`ColdWrites.ColdHandleWithACache`).
- An accepted upload whose reply lacks an ETag leaves the handle with its old one, if it had one; from then on every
  upload of that handle is refused, although no other client has touched the file (filehandler.go:302-305):
  `Acknowledgements.StrandedForGood`.
- `Truncate` unlocks twice when its download fails (filehandler.go:337, 344-347): `Locking.LockBalance` says that this is
  the only unbalanced step, `Traces.FailedTruncateCrashes` and `Traces.FailedTruncateAdmitsTwoWriters` show both outcomes.
  Without such a theft of the mutex no slice expression is out of range and every write copies all its bytes
  (`Thefts.IntactWithoutTheft`); with one, a write can report success for none of its bytes, or panic
  (`Thefts.TheftShortensWrite`, `Thefts.TheftPanics`).
- The branch for a missing file empties the cache and keeps the ETag (filehandler.go:139-147), which is the only step
  after which an ETag may match although the cache was not built from that version (`Conflicts.StepKeepsMatch`). From
  there another client's update can always be lost (`LostUpdates.ForeignTagLosesUpdate`).
- A handle without an ETag, because it saw the file missing or a reply lacked one, uploads without If-Match
  (filehandler.go:244-249) and then replaces what another client created meanwhile, also when calls are sequential
  (`LostUpdates.UntaggedUploadLosesUpdate`); with sequential calls these are the only uploads that replace a version the
  handle has not seen (`LostUpdates.UnseenExactly`, `LostUpdates.OnlyUntaggedReplaceUnseen`).
- Downloads run without the mutex. A download can drop an acknowledged write exactly if an upload is accepted while
  another worker holds the result of a download that it has not installed yet (`ColdStart.StepStaysUpToDate`,
  `ColdStart.PendingRollsBack`). That does not happen if no write section begins during a download and no download begins
  during a write section (`ColdStart.ColdStartIsSafe`); of these two neither is enough
  (`Traces.SectionDuringDownloadLosesWrite`, `Traces.DownloadDuringSectionLosesWrite`).
- A write of no bytes past the end extends the file (filehandler.go:84-91): `ColdWrites.EmptyWriteExtends`.
- A refused listing of the spaces is read as "no spaces", without an error (cs3.go:435-437).
- "/" can be listed, but its stat reports "not found" (cs3.go:330-333, 390-397).

## Model

| member | source | states |
|---|---|---|
| Bytes.ByteProvenance | pkg/vfs/filehandler.go:84-94 | each byte of the file after any requests is what the last request that covered it wrote, the original byte, or zero |
| Bytes.NoResurrectedBytes | pkg/vfs/filehandler.go:353-364 | after a truncation, whatever follows, a byte past the cut is zero unless a later request wrote it: the old tail has no influence |
| Bytes.FileLength | pkg/vfs/filehandler.go:84-91 | after any requests the file is as long as its last truncation said, or as the furthest end of a write since then |
| Bytes.LengthAfterCut | pkg/vfs/filehandler.go:353-366 | a truncation to n leaves n bytes, whether it cuts or extends |
| Bytes.ReorderingFreedom | pkg/vfs/filehandler.go:84-94 | the order of a set of writes is irrelevant, for every prior content, if and only if they agree wherever they overlap (section 6.1 of the SFTP draft) |
| Bytes.ChunksAssemble | pkg/vfs/filehandler.go:84-94 | any split of data into writes, in any order, gives the data followed by the old content past it |
| Paging.DrainYieldsAll | pkg/vfs/sftp.go:146-156 | a client that reads at accumulated offsets until told of the end, each time in the state the read before left, terminates and collects everything once, in order, for all positive buffer sizes |
| Handler.ReadCacheIsPread | pkg/vfs/filehandler.go:105-119 | reading the cache answers as pread on the simple file, end-of-file flag included |
| Handler.PatchIsWrite | pkg/vfs/filehandler.go:84-94 | growing then copying is the simple file's write, and keeps size and length equal |
| Handler.BodyIsContent | pkg/vfs/filehandler.go:274 | an upload sends the whole cache, nothing more or less |
| LoneClient.AnyCall | pkg/vfs/filehandler.go:57-119 | one call on any handle, warm or cold, whatever its cache holds, is the simple file's request on the content it was loaded with; an acknowledged one publishes exactly the result, any other leaves the remote alone, and one that reports a failed download changes nothing |
| LoneClient.WarmCall | pkg/vfs/filehandler.go:57-119 | one call on a warm handle is the simple file's request; an acknowledged one puts that file on the remote, any other leaves the remote alone |
| Effects.ReadReturns | pkg/vfs/filehandler.go:57-119 | a read from any handle fails exactly if it cannot load, and otherwise returns as many of the file's bytes as fit, each from its place, and tells the end exactly if nothing is left |
| Effects.WriteLeaves | pkg/vfs/filehandler.go:74-102 | a write from any handle reports all its bytes; every byte, the length and the size of the cache after it; the cache is the remote's next version exactly if no error is reported |
| Effects.TruncateLeaves | pkg/vfs/filehandler.go:335-369 | a truncation to n that can load leaves a cache of exactly n bytes, the old ones and zeros after them, and publishes it exactly if no error is reported; one that cannot changes nothing |
| Effects.ChangeIsAnswered | pkg/vfs/filehandler.go:223-305 | a change reports no error exactly if its requests are granted and it carries no ETag or the current file's; and which ETag the handle has afterwards |
| LoneClient.RemoteIsLastSaved | pkg/vfs/filehandler.go:74-102 | in every run from any handle, whatever downloads fail, the remote is the cache as it was after the last acknowledged call |
| LoneClient.RefinesTheSimpleFile | pkg/vfs/filehandler.go:57-119 | for every sequence of calls and mix of failed uploads, the cache is the fold of all requests and the remote the fold up to the last acknowledged one; every further read returns pread of that fold |
| LoneClient.WritesInAnyOrder | pkg/vfs/filehandler.go:74-102 | any two orders of writes that agree on overlaps give the same cache, and the same remote file when the last upload of each is accepted |
| ColdWrites.AcknowledgedWrite | pkg/vfs/filehandler.go:75-99 | what an acknowledged write leaves on the remote, for every handle: the patch of what its download brought, or of its own cache if it was warm or the download error was ignored |
| ColdWrites.BytesOutsideTheWrite | pkg/vfs/filehandler.go:75-99 | for every handle, an acknowledged write keeps the bytes outside its range if and only if a cold handle's download succeeded or saw no file, or the cache it started from, zero-filled to the write's end, has those bytes |
| ColdWrites.BytesOutsideTheFirstWrite | pkg/vfs/filehandler.go:75-99 | for a new handle: if and only if the download did not fail, or there was nothing to lose outside the range |
| ColdWrites.ColdHandleWithACache | pkg/vfs/filehandler.go:75-99 | a reachable handle that is cold and has a cache and an ETag, whose next write keeps a byte that a new handle's would have lost |
| ColdWrites.EmptyWriteExtends | pkg/vfs/filehandler.go:84-91 | a write of no bytes zero-fills the file up to its offset, and changes nothing exactly if the offset is not past the end |
| ColdWrites.IgnoredDownloadErrorZeroesPrefix | pkg/vfs/filehandler.go:76-78 | the run in which an ignored error replaces a prefix by zeros |
| Acknowledgements.AcknowledgedExactly | pkg/vfs/filehandler.go:223-313 | along every lone run of a warm handle a call is acknowledged if and only if it is a change, its requests are granted, and no earlier accepted reply lacked an ETag while the handle held one |
| Acknowledgements.AcknowledgedFromTheStart | pkg/vfs/filehandler.go:207-313 | the same from a new handle whose first download succeeds |
| Acknowledgements.StrandedForGood | pkg/vfs/filehandler.go:302-305 | after such a reply no later change of the handle reaches the remote |
| RoundTrips.ReadAtServes | pkg/vfs/filehandler.go:57-71 | a read of a handle that is warm, or whose download succeeds, returns its page of the file and leaves a handle that reads the same file whatever the gateway answers later |
| RoundTrips.ReadToTheEnd | pkg/vfs/filehandler.go:57-71 | reading to the end, each read on the handle the one before left and with answers of its own, yields the file; of the downloads only the first need succeed |
| RoundTrips.OpenOnlyCreates | pkg/vfs/sftp.go:82-101 | an open keeps every byte, creates a missing file exactly if it is for writing with Creat or Trunc and the touch is granted, touches nothing that exists, and returns a cold handle |
| RoundTrips.RoundTrip | pkg/vfs/sftp.go:82-101 | open with Creat or Trunc, write any chunks of data in any order, then read a new handle to the end with any buffer sizes: the data, followed by the old content past it |
| FileHandlers.CopyBytes | pkg/vfs/filehandler.go:88-94 | copying a run of bytes into an array changes that run and nothing else |
| FileHandlers.FileHandler.constructor | pkg/vfs/filehandler.go:39-54 | a new handle is cold, empty, without an ETag and unlocked |
| FileHandlers.FileHandler.Reallocate | pkg/vfs/filehandler.go:87-89 | the new array holds the old content and zeros after it |
| FileHandlers.FileHandler.GrowTo | pkg/vfs/filehandler.go:84-91 | cache and size grow to the required size, only if they are smaller |
| FileHandlers.FileHandler.WriteInto | pkg/vfs/filehandler.go:93-94 | the bytes are copied into the cache in place |
| FileHandlers.FileHandler.Patch | pkg/vfs/filehandler.go:84-94 | the two together, with 64-bit arithmetic in range |
| FileHandlers.FileHandler.CopyOut | pkg/vfs/filehandler.go:113 | the buffer receives as many bytes of the cache as fit, and the rest of it is unchanged |
| FileHandlers.FileHandler.ReadFromCache | pkg/vfs/filehandler.go:105-119 | the client's buffer receives pread of the cache; the rest of it, and the handle, are unchanged |
| FileHandlers.FileHandler.DownloadFile | pkg/vfs/filehandler.go:122-220 | installs the current version and its ETag; a missing file gives a valid empty cache and keeps the ETag; a failure changes nothing |
| FileHandlers.FileHandler.UploadFile | pkg/vfs/filehandler.go:223-313 | accepted exactly if If-Match holds and no request fails; then the whole cache is the new version and the ETag follows the reply |
| FileHandlers.FileHandler.Load | pkg/vfs/filehandler.go:58-68 | a handle that is not warm is downloaded, a warm one left alone, and the read lock is released |
| FileHandlers.FileHandler.ReadAt | pkg/vfs/filehandler.go:57-71 | count, end flag and bytes are those of the file, downloaded if need be; after a failed download the count is 0 and the buffer unchanged |
| FileHandlers.FileHandler.WriteSection | pkg/vfs/filehandler.go:81-102 | patch and upload under the mutex, which is released |
| FileHandlers.FileHandler.WriteAt | pkg/vfs/filehandler.go:74-102 | count, error and new state are those of the value model, the ignored download error included |
| FileHandlers.FileHandler.Resize | pkg/vfs/filehandler.go:353-366 | the cache has exactly the requested length, with the old bytes and zeros after them, on a backing array that may keep the old tail |
| FileHandlers.FileHandler.ResizeSection | pkg/vfs/filehandler.go:352-369 | resize and upload under the mutex, which is released |
| FileHandlers.FileHandler.Truncate | pkg/vfs/filehandler.go:335-369 | a negative size changes nothing; otherwise length and size are the requested ones, unless the mutex is released twice, which is exactly when a cold download fails; the rest as in `Effects.TruncateLeaves` |
| Protocol.ReplayFromOrigin | pkg/vfs/filehandler.go:84-99 | at every point the file is what it was at the last agreement with the remote plus the requests applied since |
| Locking.Exclusion | pkg/vfs/filehandler.go:57-63 | readers and the writer exclude each other, whoever is inside holds the lock, and returned calls hold none |
| Locking.LockBalance | pkg/vfs/filehandler.go:335-350 | a step keeps the lock balanced if and only if it is not the second Unlock of a failing Truncate, which crashes or steals the mutex |
| Locking.AlwaysBalanced | pkg/vfs/filehandler.go:57-119 | in every run in which no Truncate's download fails the lock stays balanced |
| Locking.NoDeadlock | pkg/vfs/filehandler.go:57-119 | while a call is under way, the lock is balanced and the process is up, some worker in a call can make a step |
| Progress.BoundedlyManySteps | pkg/vfs/filehandler.go:57-119 | a run in which no call starts, whatever interleaves and fails, has at most 13 steps for each worker, and one more if the process panics |
| Progress.CallsReturn | pkg/vfs/filehandler.go:57-119 | so, without a failing Truncate download, calls return: the steps are bounded, and where none is possible every call has returned |
| Linearizability.StepKeepsCache | pkg/vfs/filehandler.go:81-99 | every step of every worker keeps the cache equal to the file that the log describes, halfway points included |
| Linearizability.AlwaysSound | pkg/vfs/filehandler.go:57-119 | in every run without a failing Truncate download: lock balance, cache, the answers of reads, the content of accepted uploads, and no panic |
| Linearizability.StepStaysWarm | pkg/vfs/filehandler.go:57-78 | with a warm handle and no download in flight no step starts or installs one |
| Linearizability.WarmHandleIsLinearizable | pkg/vfs/filehandler.go:57-119 | every interleaving of any number of workers on a warm handle is the simple file with the requests in the order of lock acquisition; each read is a slice of it, each accepted upload all of it |
| Linearizability.AnyInterleavingSameFile | pkg/vfs/filehandler.go:74-102 | two runs that applied the same writes, agreeing on overlaps, end with the same cache however they interleaved |
| Linearizability.SizesAndBounds | pkg/vfs/filehandler.go:84-116 | outside write sections size is length and a valid cache is not nil; every slice expression is in range, across all download installs |
| Bounds.LengthsStayBounded | pkg/vfs/filehandler.go:85-116 | in every run, halfway states and failing truncations included: if requests, the file and other clients' versions end within a bound, so do the cache, the size, every version and found file, every request's end and every offset plus bytes read |
| Returns.ReturnsAreLogged | pkg/vfs/filehandler.go:57-102 | in every run whatever, stolen mutexes included, between the start of a call and its return its worker did exactly what the result says: at most one install, then the one read whose page it returned, or one change with as many bytes as it reports, saved if and only if it reported success; nothing if it reports a failed download |
| Thefts.IntactWithoutTheft | pkg/vfs/filehandler.go:84-119 | in every run in which no failing Truncate takes the mutex from its holder, no slice expression is ever out of range and every write that returns a count returns the number of its bytes |
| Thefts.TheftShortensWrite | pkg/vfs/filehandler.go:93-102 | the run in which a write whose mutex was stolen copies none of its bytes, uploads the emptied file and reports no error |
| Thefts.TheftPanics | pkg/vfs/filehandler.go:94 | the run in which it slices the emptied cache out of range |
| Conflicts.StepKeepsTags | pkg/vfs/filehandler.go:207-212 | every ETag a worker or the handle carries is that of a version which existed |
| Conflicts.StepKeepsMatch | pkg/vfs/filehandler.go:139-147 | a current ETag goes on meaning that the cache was built from the current version, if and only if the step is not a missing file's install over a current ETag |
| LostUpdates.ForeignTagLosesUpdate | pkg/vfs/filehandler.go:139-147 | after every such step there is a continuation, of concurrent calls, that replaces by a conditional upload a version from which the cache was not built |
| Conflicts.CarefulRunsLoseNothing | pkg/vfs/filehandler.go:244-249 | concurrent runs without that step lose no other client's update |
| Conflicts.NoLostUpdate | pkg/vfs/filehandler.go:244-305 | with sequential calls and other clients acting at any moment, every accepted conditional upload replaced exactly the version from which the cache was built, by it with the handle's own requests applied |
| LostUpdates.UnseenExactly | pkg/vfs/filehandler.go:244-249 | with sequential calls, an accepted upload replaces a version the handle has not seen if and only if it carries no ETag and the current version is not the one last installed or published |
| LostUpdates.OnlyUntaggedReplaceUnseen | pkg/vfs/filehandler.go:244-249 | in every sequential run, whatever other clients do, only uploads without an ETag replace a version the handle has not seen |
| LostUpdates.UntaggedUploadLosesUpdate | pkg/vfs/filehandler.go:139-147 | the sequential run in which a write that saw no file replaces the file another client has created meanwhile |
| Conflicts.ConflictIsPermanent | pkg/vfs/filehandler.go:244-305 | once the remote has moved past a warm handle's ETag no run of the handle changes the remote again |
| ColdStart.StepStaysUpToDate | pkg/vfs/filehandler.go:206-212 | "no rollback so far, and no download result pending that would be one" is kept by a step if and only if it is not an upload accepted while a download result is pending |
| ColdStart.NeverRollsBack | pkg/vfs/filehandler.go:122-220 | in every run without such a step no download installs a version older than an acknowledged one |
| ColdStart.PendingRollsBack | pkg/vfs/filehandler.go:206-212 | after every such step there is a continuation that installs the replaced version |
| ColdStart.ApartNeverOverPending | pkg/vfs/filehandler.go:74-102 | if downloads and write sections do not overlap there is no such step |
| ColdStart.ColdStartIsSafe | pkg/vfs/filehandler.go:122-220 | so then no download drops an acknowledged write |
| ColdStart.AcknowledgedWritesSurvive | pkg/vfs/filehandler.go:74-102 | without such a step, and with no other client, the remote is the file at the last acknowledged request and every later download brings exactly that back |
| KeptRequests.AcknowledgedAreKept | pkg/vfs/filehandler.go:74-102 | then the file is its base with a subsequence of the requests applied in order, in which every request whose upload was accepted is and stays, however often the handle downloads; so is the remote |
| SoloRuns.SoloCall | pkg/vfs/filehandler.go:57-102 | for all answers there is a run of a worker by itself with the handle, remote, mutex and result of the sequential model; or it panics, which needs a handle whose size is not the length of its cache |
| SoloRuns.EverySoloCall | pkg/vfs/filehandler.go:57-102 | every run of a worker by itself that returns from its call has, for some answers, the handle, remote, mutex and result of the sequential model |
| Traces.SectionDuringDownloadLosesWrite | pkg/vfs/filehandler.go:139-147 | the run in which a stale "not found" empties the cache, keeps the new ETag and lets the next upload replace an acknowledged write |
| Traces.ColdHandleIsNotLinearizable | pkg/vfs/filehandler.go:74-102 | after that run, from a cold handle, the cache is not the file with the acknowledged requests applied |
| Traces.DownloadDuringSectionLosesWrite | pkg/vfs/filehandler.go:206-212 | the run in which a download begun during a write section installs the older version over an acknowledged one |
| Traces.CheckBeforeTransferIsNotEnough | pkg/vfs/filehandler.go:244-274 | the run in which a conditional upload replaces another client's version, when If-Match is looked at only before the transfer |
| Traces.FailedTruncateCrashes | pkg/vfs/filehandler.go:344-347 | a Truncate whose download fails releases a mutex nobody holds |
| Traces.FailedTruncateAdmitsTwoWriters | pkg/vfs/filehandler.go:344-347 | or takes it from a writer, and two workers are in their write sections |
| Paths.Slash | pkg/vfs/spacelookup/spacelookup.go:69 | the cut is at the first slash |
| Paths.SplitOfJoin | pkg/vfs/spacelookup/spacelookup.go:64-90 | splitting undoes joining if and only if the rest is canonical, and takes one slash off the end of any other |
| Paths.JoinOfSplit | pkg/vfs/spacelookup/spacelookup.go:64-90 | joining undoes splitting, for every absolute path that names a space and has no slash at its end |
| Paths.NamesNoSpace | pkg/vfs/spacelookup/spacelookup.go:71-73 | exactly the empty paths and those with two slashes in front name no space |
| Paths.SplitOfChild | pkg/vfs/spacelookup/spacelookup.go:64-90 | a path with one more name is in the same space, one name further down |
| Paths.SplitIgnoresFirstSlash | pkg/vfs/spacelookup/spacelookup.go:65-66 | a path means the same with and without its first slash |
| Spaces.FindSpaceForPath | pkg/vfs/spacelookup/spacelookup.go:29-40 | returns the first space with the name, and the rest of the path |
| Spaces.SpaceIsFound | pkg/vfs/spacelookup/spacelookup.go:29-40 | a space is found under its own name if and only if the name has no slash and no earlier space has it; the empty name is no exception |
| Gateway.MoveKeepsWellFormed | pkg/vfs/cs3.go:134-137 | a move, overwriting or not, leaves a tree |
| Gateway.DeleteFile | pkg/vfs/cs3.go:214-216 | although Delete is recursive, deleting a non-directory takes one path and one file |
| Gateway.DeleteEmptyDir | pkg/vfs/cs3.go:300-302 | deleting a directory with an empty listing takes one path and no file |
| Gateway.MoveReplaces | pkg/vfs/cs3.go:134-137 | a move keeps every file content as often as it occurs, except the files at or below its target |
| Namespace.Root.Find | pkg/vfs/cs3.go:17-29 | resolution of a path to a place or to the error to return at once |
| Namespace.Root.MakeDir | pkg/vfs/cs3.go:16-68 | error and new state are those of `MkdirAt`, about which `MkdirAddsOneDirectory` is proved: one new directory or no change |
| Namespace.Root.RenameFile | pkg/vfs/cs3.go:70-163 | error and new state are those of `RenameAt` (`ServedRequests.AnyRename`, `RenameMoves`): done only within one space, and a failed rename changes nothing |
| Namespace.Root.DeleteResource | pkg/vfs/cs3.go:214-234 | the whole subtree goes or nothing does, and a missing path is told apart from other failures |
| Namespace.Root.RemoveFile | pkg/vfs/cs3.go:165-235 | error and new state are those of `RemoveAt` (`RemoveTakesOneFile`): one file goes or nothing changes |
| Namespace.Root.RemoveDir | pkg/vfs/cs3.go:237-321 | error and new state are those of `RmdirAt` (`RmdirTakesOneEmptyDirectory`): one empty directory goes or nothing changes |
| Namespace.Root.Filecmd | pkg/vfs/sftp.go:104-137 | error and new state are those of `Serve`, which the `ServedRequests` lemmas describe request by request |
| Namespace.RemoveTakesOneFile | pkg/vfs/cs3.go:165-235 | remove succeeds if and only if calls are answered and the path is a file; that one file goes, else nothing changes |
| Namespace.RmdirTakesOneEmptyDirectory | pkg/vfs/cs3.go:237-321 | rmdir succeeds if and only if calls are answered and the path is an empty directory below the root; only it goes |
| Namespace.MkdirAddsOneDirectory | pkg/vfs/cs3.go:42-67 | mkdir succeeds if and only if the path is free in an existing directory, adds only that, and reports an existing path as such |
| Namespace.RenameOntoExisting | pkg/vfs/cs3.go:120-131 | a plain rename onto an existing path changes nothing if and only if the Stat is answered, or Move refuses existing targets, or the move would fail anyway |
| Namespace.RenameMoves | pkg/vfs/cs3.go:95-162 | exactly when a rename succeeds; it loses the files at its target and no others |
| Namespace.PlainRenameDestroysTarget | pkg/vfs/cs3.go:121-137 | with a failing Stat and an overwriting Move a plain rename destroys its target |
| Namespace.PerformKeeps | pkg/vfs/cs3.go:16-321 | every command keeps the trees well formed and the other spaces untouched |
| Namespace.Conservation | pkg/vfs/cs3.go:16-321 | over every run of requests with any answers, each file content is kept as often as it occurs, except what removes took and what lay at a rename's target |
| Namespace.SafeRunsOverwriteNothing | pkg/vfs/sftp.go:108-111 | plain renames with answered Stats, or on a storage that refuses existing targets, overwrite nothing in any run |
| Namespace.LocateOfJoin | pkg/vfs/spacelookup/spacelookup.go:29-40 | the path of a place is located there again, for the first space of its name |
| ServedRequests.PathLeads | pkg/vfs/cs3.go:17-29 | a path leads to the first space that its first element names, exactly if the spaces are listed and there is one; otherwise it does not exist, or the listing failed |
| ServedRequests.ServeRemove | pkg/vfs/sftp.go:114-117 | when Remove succeeds and what each of its errors means: a directory, nothing there, no such space; only success changes anything |
| ServedRequests.ServeRmdir | pkg/vfs/sftp.go:112-113 | when Rmdir succeeds and what each of its errors means: no directory, not empty, nothing there, no such space |
| ServedRequests.ServeMkdir | pkg/vfs/sftp.go:118-119 | when Mkdir succeeds and what each of its errors means |
| ServedRequests.AnyRename | pkg/vfs/cs3.go:70-163 | for any two paths: a rename is done only within one space; a path that leads nowhere gives its own error, two spaces theirs, an existing target and a missing source theirs |
| ServedRequests.ServeRename | pkg/vfs/sftp.go:108-137 | Rename answers so without, PosixRename with leave to overwrite |
| ServedRequests.ServeNothingElse | pkg/vfs/sftp.go:106-127 | all other requests are refused and change nothing |
| Interference.DeleteTakesWhatWasMeant | pkg/vfs/cs3.go:206-216 | the recursive Delete takes what the command meant if and only if the target still is what was checked |
| Interference.DeletesOnlyWhatWasChecked | pkg/vfs/cs3.go:252-302 | in every interleaving in which others leave the target alone between the last check and the Delete, rmdir destroys one empty directory or nothing, remove one file or nothing |
| Interference.InterferenceLosesFile | pkg/vfs/cs3.go:283-302 | without that, a file created after the check is lost |
| Interference.RemoveAlone | pkg/vfs/cs3.go:165-235 | without interference the calls of remove are the sequential remove |
| Interference.RmdirAlone | pkg/vfs/cs3.go:237-321 | without interference the calls of rmdir are the sequential rmdir |
| RenameRaces.LosesExactly | pkg/vfs/cs3.go:120-137 | a step of a plain rename destroys something if and only if it is an answered Move, possible as to its paths, on a storage that replaces targets, with the target in existence at that moment |
| RenameRaces.PlainRenameDestroysNothing | pkg/vfs/cs3.go:120-137 | in every interleaving in which others do not create the target between Stat and Move, and an overwriting storage answers the Stat, a plain rename destroys nothing |
| RenameRaces.RaceDestroysTarget | pkg/vfs/cs3.go:121-137 | without that, a file created at the target after the check is lost |
| RenameRaces.RenameAlone | pkg/vfs/cs3.go:120-162 | without interference the calls of a plain rename are the sequential rename |
| Listings.ToFileInfos | pkg/vfs/cs3.go:442-466 | one entry per resource, in order, with its name and size; directory, by kind and mode bit, exactly for containers; permissions 0755 for those and 0644 for the rest |
| Listings.StorageSpacesToFileInfo | pkg/vfs/cs3.go:468-489 | one directory entry per space, in order |
| Listings.ListAgreesWithStat | pkg/vfs/cs3.go:377-418 | below the root, every listed entry is what stat says of its own path and describes what is there, a directory or a file of that length; and every path one name down that stat knows is listed |
| Listings.RootHasNoStat | pkg/vfs/cs3.go:390-397 | "/" has no stat when no space has an empty name |
| Listings.ListAt | pkg/vfs/sftp.go:146-156 | the buffer receives as many entries from the offset on as fit, the rest of it is unchanged, and the end is reported exactly when it is not filled or the offset is past the last |
| Listings.PagedListingIsComplete | pkg/vfs/sftp.go:146-156 | reading pages of any positive sizes to the end terminates and yields every entry once, in order, also when the last page is exactly full |

## Left out

- HTTP and gRPC plumbing: endpoints, headers, tokens, TLS, time limits and logging. A request is granted, granted without
  an ETag, or fails; all failures of the gateway that the code does not tell apart are the one error `OTHER`, and so is a
  refused permission.
- Negative offsets of `ReadAt` and `WriteAt`, and ends past the 64-bit range: the SFTP library's offsets are taken to be
  non-negative and in range. A negative size of `Truncate` is modelled.
- What Go does after a Truncate has stolen the mutex is followed as to panics and short copies, step by step. Two things
  are not: an upload whose size lies between the length of the cache and its capacity stops in the model like a panic,
  where Go sends old bytes of the backing array; and a step of a worker is still taken to be indivisible.
- The waiting writer of a Go RWMutex, which blocks new readers: the model's mutex admits more interleavings. That some
  worker can go on, and that this ends, is proved; fairness is not stated.
- What the Go memory model says of the unlocked read of `cacheValid`.
- Reading a file version that another client removes or replaces halfway through the transfer: a download observes one
  version.
- `storagespace.ParseID` and `utils.MakeRelativePath` of the storage library are not part of this model: a space id and a
  list of names stand for a reference. With them go the provider id of the shares space and their errors.
- The names "." and ".." in paths: they are ordinary names here.
- Modification times, and permission bits beyond those set by the listing code; that a space is listed with mode 0775 but
  would be described with 0755 as a resource; stat of a space's own root.
- `stat` of an absent path, which returns an entry with an empty name instead of an error. Agreement of listing and stat is
  stated for paths that exist.
- The storage's trees are maps held as values in a field of the root object; other sessions acting in the middle of a
  command are covered for remove, rmdir and plain rename only (`Interference.dfy`, `RenameRaces.dfy`).
- Namespace.Conservation: sequential runs of one session; interleaved renames and mkdirs are not part of it.
- Linearizability.AlwaysSound: runs in which the download of a Truncate fails are left out, since the mutex no longer
  excludes anything after them (`Traces.FailedTruncateAdmitsTwoWriters`).
- Resolving the path of an open (sftp.go:62-80), which is that of the other commands, and the check of the open's direction
  (sftp.go:36-53): `RoundTrips.OpenFile` starts where the space is known.
- Session set-up, authentication, configuration, key generation and the command line (`pkg/server`, `pkg/config`,
  `pkg/keygen`, `pkg/command`): they would add only easy members.
