# Sendly in Dafny

Sendly is a file sharing service: browsers encrypt files chunk by chunk and upload
them to a deployment of many replicas, which share a database and a disk. This
project models the parts of it whose guarantees span several functions and many
interleaved runs, and proves them.

| files | what they model |
|---|---|
| `UploadSessions`, `UploadProtocol`, `UploadGuarantees`, `UploadDelivery`, `UploadCalls`, `UploadService` | one upload on any number of replicas: chunk saves and resends, completion, assembly under leases, crashes, finalizing, cancelling, cleanup |
| `FileFormat`, `ChunkUploads`, `LinkDownload`, `LinkGuarantees`, `LinkCalls`, `LinkPage` | the encrypted file format, the upload loop's concurrency, and the parallel range download with its failed and repeated attempts |
| `UserRecords`, `UserSync` | the user cache: merging observations of a profile, and re-checking the cache against the CNS directory under a deletion budget |
| `DeviceTrust`, `TrustGuarantees`, `TrustCalls`, `DeviceService`, `KeyPaging` | devices, identity keys and enrollments of one account, and the re-wrapping of its file keys |
| `Tunnels`, `TunnelGuarantees`, `TunnelCalls`, `TunnelService` | quick share tunnels: joining, approval, rejection, key envelopes |
| `Transfers` | file transfers between users and the retention purge |
| `RateLimit`, `ReplicaJobs`, `SharedRefresh` | coordination between replicas |
| `GlyphMatch`, `GlyphWrap`, `GlyphMorph`, `LikeSearch` | the text morph's letter matching, the rolling digit, and literal search |

Every protocol is a pure machine: a state, an event for each atomic step, and `Run`
over a sequence of events, so a theorem about all sequences is a theorem about all
interleavings. Beside the machine stands a class whose methods change the same
tables step by step, as the program does; each method's postcondition says that it
is exactly its step of the machine. What each call answers and changes is stated once more,
for all calls together and field by field, in the modules named Calls. `dafny verify dfyconfig.toml` takes in all files.

## Where the code does not do what it says

Each of these is a theorem with its exact condition, not a change to the model.

- `encryptFileChunked` promises "up to `concurrency` at a time". The settle handler
  removes the raw promise, but the set holds the wrapped one, so the set never shrinks
  and after one upload settles the race holds nothing back. The bound holds in every
  run if and only if the file has at most `concurrency + 1` chunks
  (`ChunkUploads.ConcurrencyHoldsExactly`).
- The link page passes the size of the encrypted blob to `decryptFileChunked` as the
  original size. That opens the file if and only if 20 + 28n is at most
  n * 5 MiB minus the file size, for n chunks, and else fails
  (`FileFormat.LinkDownloadOpens`); no file of exactly 5 MiB opens
  (`FileFormat.FullChunkLinkFails`).
- When one worker of a link download gives up, the page is reset while the other workers
  go on reading, and they go on counting. The clamp at zero then swallows the bytes they
  take back (`LinkGuarantees.LeftOverLosesBytes`), and the counter of the next attempt
  shows theirs. A new attempt's counter is exact, and its clamp loses nothing, if and
  only if no worker of an earlier attempt is still reading when it begins
  (`LinkGuarantees.CounterIsExactly`). The file itself is never wrong
  (`LinkGuarantees.DownloadIsWhole`).
- A size below the file's does not fail: zero or less opens to the empty file, and a whole
  number of chunks to the file's beginning, without an error. Any other that opens is cut to
  that many bytes (`FileFormat.TruncatesSilently`).
- Device ids are UUID columns, and inserts read any spelling of one, but lookups compare the
  request's text with the text of the column. So an approver that recovers under another
  spelling of its own id, which is refused to it otherwise, passes for a new standard device:
  it revokes all others and mints the next key version (`TrustGuarantees.ApproverRecovers`).
  In the runs whose registrations and recoveries use given spellings, a standard device
  always stays trusted, and only standard ones issue versions, if and only if each spelling is
  the text of the id as the database writes it, which a caller can check; a text that is no
  UUID is refused (`TrustGuarantees.KeyCustody`, `TrustGuarantees.IssuersExactly`).
- The same holds for tunnels. A declined device that joins under another spelling has a row
  again (`TunnelGuarantees.DeclinedReturns`), and a second guest that joins beside an approved
  device under another spelling of its id is served that device's envelope, unapproved
  (`TunnelGuarantees.UnapprovedServed`). A declined device stays out and is refused, a device
  has one row, and only approved participants are served, in every run whose joins use given
  spellings, each if and only if all of these are the text of the id as the database writes it
  (`TunnelGuarantees.DeclinedDeviceStaysOut`, `TunnelGuarantees.DeclinedIsRefused`,
  `TunnelGuarantees.MembershipHolds`, `TunnelGuarantees.OnlyApprovedAreServed`).
- `DeviceIdentity.Approve` checks the expiry on the replica's clock, stores the key copy,
  and updates the enrollment only if the database's clock is before the expiry. It
  stores the key and answers with an error if and only if it passes every check no later
  than the expiry and updates no earlier, whichever clock is ahead
  (`TrustGuarantees.RefusedApprovalStoresKey`, with a run to it in
  `TrustGuarantees.ApprovalAcrossExpiry`).
- `SharedRefresh` compares an expiry with the NOW() of the caller's transaction, while the
  purge uses its own, and a redemption whose storing fails is used all the same. So a
  token is redeemed twice within the ttl exactly when a purge ran while the caller waited,
  or the redemption was not stored and no older result is fresh
  (`SharedRefresh.TooEarlyExactly`). With transactions bounded by five seconds and a ttl of
  ten, a stored redemption is repeated only by a caller that began more than five seconds
  after it (`SharedRefresh.FiveSecondsApart`), and within the ttl exactly the gaps above ttl
  less the bound occur (`SharedRefresh.EarlyGapsExactly`).
- `matchGlyphs` keeps its table in 16-bit cells. For which text lengths it still reuses
  a longest common subsequence is decided exactly (`GlyphWrap.ReusesAllExactly`).
- The expiry cleanup takes an expired session unless it is assembling under a lease that
  has not lapsed, or under none: that lease is NULL and the condition then unknown, not
  true (`UploadGuarantees.CleanupTakesExactly`). A session outlives every wait and cleanup
  without a claim or cancel if and only if it is assembling and unleased
  (`UploadGuarantees.OutlivesCleanupExactly`), hidden from every request, as in
  `UploadGuarantees.HiddenSessionRemains`.
- A guest's tunnel that was started without a device id can never become active, because
  its confirmation has to name that device (`TunnelGuarantees.NamelessGuestNeverStarts`).
- A job whose replica loses its database connection goes on without its lock. Two runs
  then overlap if the run lasts for the interval, and only then
  (`ReplicaJobs.OverlapNeedsDisconnect`, `ReplicaJobs.OverlapHappens`).

## Model

| member | source | states |
|---|---|---|
| UploadProtocol.StepInv | internal/storage/upload_sessions.go:57-230 | every step of any client, replica or cleanup keeps: chunks on disk whole and only admitted ones, each assembly's temporary blob a prefix of the chunks and its own, a blob whole, owner and lease set together and only while assembling, a started session complete |
| UploadGuarantees.BlobIsWhole | internal/storage/filesystem.go:122-186 | in every interleaving a final blob is the concatenation of all chunks in index order, an assembled or finalized session has it until its file is deleted, and a live file keeps it |
| UploadGuarantees.RowChanges | internal/storage/upload_sessions.go:89-215 | all that any step may do to the session row: who may change it, in which state, to what |
| UploadGuarantees.StatesOnlyAdvance | internal/storage/upload_sessions.go:89-215 | states move uploading, assembling, assembled, finalized, with assembling to failed and back as the one loop, although marking finalized has no guard; a dropped session never returns |
| UploadGuarantees.OwnerIsLatestClaimer | internal/storage/upload_sessions.go:134-160 | a lease always belongs to the replica whose claim was granted last |
| UploadGuarantees.OnlyLatestClaimerActs | internal/services/upload.go:289-396 | while assembling, only a new claim, a cancel or expiry, or the latest claimer itself changes the row: a displaced replica's renew, finish, fail and release change nothing |
| UploadGuarantees.FinishesAtMostOnce | internal/storage/upload_sessions.go:162-175 | over any run a finish takes effect at most once |
| UploadGuarantees.LeaseExcludesOthers | internal/storage/upload_sessions.go:134-160 | until a replica's lease lapses nothing but its own steps or a cancel changes the row |
| UploadGuarantees.CleanupTakesExactly | internal/storage/upload_sessions.go:217-230 | after any run the cleanup drops the session if and only if it has expired and is not assembling under a NULL or unlapsed lease; otherwise it changes nothing |
| UploadGuarantees.OutlivesCleanupExactly | internal/storage/upload_sessions.go:217-230 | after any run, the session survives every further run without claims and cancels if and only if it is assembling with a NULL lease |
| UploadGuarantees.UnleasedAssemblyOutlivesExpiry | internal/storage/upload_sessions.go:217-230 | and then no such run changes its row at all |
| UploadGuarantees.HiddenSessionRemains | internal/storage/upload_sessions.go:38-56 | a run from the start, one chunk uploaded and completed, whose session is expired, hidden from every lookup, and still there after a cleanup |
| UploadGuarantees.CompleteNeedsEveryChunk | internal/storage/upload_sessions.go:89-132 | complete starts the assembly if and only if every index below the total is recorded |
| UploadGuarantees.ChunksKeptUntilAssembled | internal/storage/filesystem.go:275-301 | in runs without cancels every recorded chunk stays on disk, whole, until assembled; once started that is every chunk |
| UploadGuarantees.OnlyIOFailsAnUpload | internal/services/upload.go:322-396 | in runs without cancels a session becomes failed only by an I/O error or a swept temporary blob, never by a missing chunk or a lost lease |
| UploadGuarantees.TakeoverSucceeds | internal/services/upload.go:289-396 | from any sound state with all chunks, a replica that can claim and is left alone assembles the whole blob |
| UploadGuarantees.NeverStuck | internal/services/upload.go:132-143 | however a run without cancels got there, an assembling session can, after some wait, be claimed by any replica that is not at work on it, and its assembly succeeds |
| UploadDelivery.RecordedIffAccepted | internal/storage/upload_sessions.go:58-81 | over every run a chunk is recorded if and only if a record of it was accepted: it was on disk and the session, still uploading, had not expired |
| UploadDelivery.RecordAddsItsChunk | internal/storage/upload_sessions.go:58-81 | an accepted record adds its chunk to those recorded before and gives the session another hour; any other changes nothing |
| UploadDelivery.CompletesInAnyOrder | internal/services/upload.go:240-288 | for every content, a client that uploads every chunk, in any order and with repeats, none an hour after the one before, and then completes has started the assembly |
| UploadDelivery.UploadDelivers | internal/services/upload.go:240-288 | and with one undisturbed assembly and one finalize it has a live file, whose blob is its chunks joined in index order |
| UploadCalls.SessionChangesExactly | internal/storage/upload_sessions.go:58-230 | every update of the session row by any event, with its condition and all its values, and no other |
| UploadCalls.CompleteAnswers | internal/storage/upload_sessions.go:93-132 | completing answers not found, incomplete, the row as it is, or the started one, each exactly when |
| UploadCalls.ChunksChangeExactly | internal/services/upload.go:240-266 | a chunk comes by an admitted request with the client's bytes; all go together, exactly when the session is dropped or hidden and cancelled, the assembly is done, or the sweep finds no session |
| UploadCalls.FilesChangeExactly | internal/services/upload.go:421-603 | the blob comes by a rename alone and goes with a dropped session that made no file or with the file; the file row comes exactly by a finalize of a seen, assembled session with its blob |
| UploadCalls.WorkersChangeExactly | internal/storage/filesystem.go:122-186 | each replica's position after any event: only its own events move it, each from where it applies to where it leads |
| UploadCalls.TempsChangeExactly | internal/storage/filesystem.go:122-186 | a temporary blob is opened empty, grows by its replica's next chunk, and goes exactly when that copy ends or a sweep takes it |
| UploadService.UploadStore.UploadChunk | internal/services/upload.go:240-268 | accepted exactly when the session is uploading, live and the index valid, and then the chunk is on disk, recorded beside all those before, and the session has another hour; else nothing changes |
| UploadService.UploadStore.RecordChunk | internal/storage/upload_sessions.go:57-81 | the guarded update and the idempotent insert: adds the chunk to those recorded before, or changes nothing |
| UploadService.UploadStore.StartAssembly | internal/storage/upload_sessions.go:89-132 | is the protocol's complete step, with its four answers |
| UploadService.UploadStore.ClaimAssembly | internal/storage/upload_sessions.go:134-148 | is the claim step, granted exactly when the lease is claimable and this replica is not already at work |
| UploadService.UploadStore.RenewAssembly | internal/storage/upload_sessions.go:150-160 | is the renew step; a lost lease leaves the row alone and cancels the assembly |
| UploadService.UploadStore.CheckDir | internal/storage/filesystem.go:127-144 | is the protocol's step: goes on, with an empty temporary blob, exactly when every chunk is there |
| UploadService.UploadStore.CopyChunk | internal/storage/filesystem.go:150-170 | is the protocol's step: appends the next chunk, or stops without one or without the lease and removes the temporary blob |
| UploadService.UploadStore.Rename | internal/storage/filesystem.go:171-186 | is the protocol's step: the temporary blob becomes the final one |
| UploadService.UploadStore.AssembleChunks | internal/storage/filesystem.go:122-186 | undisturbed, the copy loop succeeds exactly when all chunks are there; then the blob is the chunks joined in order; it leaves no temporary blob and touches neither chunks nor session |
| UploadService.UploadStore.RecordFailure | internal/services/upload.go:385-396 | is the protocol's step: an interrupted assembly releases the lease, any other failure is recorded, both fenced |
| UploadService.UploadStore.Assemble | internal/services/upload.go:322-396 | undisturbed, ends with the blob in place and, if this replica still owned the lease, the session assembled and the chunks gone |
| UploadService.UploadStore.FinishAssembly | internal/storage/upload_sessions.go:162-175 | is the fenced finish step |
| UploadService.UploadStore.CancelUpload | internal/services/upload.go:586-604 | is the cancel step, including the hidden expired session whose chunks it still deletes |
| UploadService.UploadStore.CleanupExpired | internal/services/upload.go:145-178 | is the expiry step: session, chunks, and the blob unless it became a file |
| UploadService.UploadStore.FinalizeUpload | internal/services/upload.go:421-560 | answers ok exactly for a seen session that is assembled with its blob or has its file, and then the file is live, or as an earlier call left it; else nothing changes |
| FileFormat.EncryptFileChunked | web/static/js/crypto.js:627-680 | chunk i is the header if first, its iv and the ciphertext of exactly its slice of the file |
| FileFormat.DecryptFileChunked | web/static/js/crypto.js:682-734 | equals the recursive reading of the format, with clamped slices and the format from before chunks |
| FileFormat.DecryptChunks | web/static/js/crypto.js:696-733 | the loop over offsets equals the recursive reading of the chunks |
| FileFormat.EncryptionExists | web/static/js/crypto.js:627-680 | every file has an encryption: the chunks of the format joined |
| FileFormat.StoredBlob | web/static/js/crypto.js:627-680 | for every file the uploaded chunks, joined, are an encryption of it, as the laws below assume |
| FileFormat.DecryptsExactly | web/static/js/crypto.js:682-734 | for every file, decrypting the joined chunks returns it if and only if it is not empty and the size told is at least the real one with the same number of chunks; more chunks, or an empty file, always fail |
| FileFormat.TruncatesSilently | web/static/js/crypto.js:696-733 | a size below the file's that is zero or less, or a whole number of chunks, opens without error to exactly that beginning of the file; any other that opens gives that many bytes, right in every whole chunk |
| FileFormat.SizeFromLength | web/static/js/crypto.js:736-743 | the size computed from the ciphertext length alone is the plaintext size, for every non-empty file |
| FileFormat.RoundTrip | web/static/js/crypto.js:736-776 | decrypting with the computed size returns the file |
| FileFormat.OldFormatOpens | web/static/js/crypto.js:578-600 | a file from before chunks, one salt, one iv and one ciphertext, opens whatever size is told, unless its salt begins like the header |
| FileFormat.LinkDownloadOpens | web/static/js/link-download.js:331-336 | decrypting with the blob's size returns the file if and only if the overhead fits into the last chunk, and else fails |
| FileFormat.FullChunkLinkFails | web/static/js/link-download.js:331-336 | the link of a file of exactly one chunk always fails to decrypt |
| FileFormat.FailingLinkExists | web/static/js/link-download.js:331-336 | such a link exists, for a cipher that keeps the laws assumed |
| ChunkUploads.ConcurrencyHoldsExactly | web/static/js/crypto.js:624-678 | no run has more than `concurrency` uploads at a time if and only if there are at most `concurrency + 1` chunks |
| ChunkUploads.NothingStartsAfterStop | web/static/js/crypto.js:648-672 | after a failed chunk or an abort no further chunk starts |
| ChunkUploads.ResolvesMeansAllUploaded | web/static/js/crypto.js:675-679 | the call resolves only when every chunk was uploaded without error |
| ChunkUploads.UploadsResolve | web/static/js/crypto.js:627-680 | for every file and limit some run resolves |
| ChunkUploads.PoolChangesExactly | web/static/js/crypto.js:640-675 | every event's effect on what is started, settled, failed, stopped and ended; the next chunk starts exactly within the limit, or once any upload has settled |
| LinkDownload.StepInv | web/static/js/link-download.js:355-475 | every step of any attempt's workers, of the first response, of success, failure and reset keeps: each index claimed once per attempt, every stored chunk and every body read so far the file's, the present attempt's workers writing to its own array |
| LinkGuarantees.DownloadIsWhole | web/static/js/link-download.js:404-449 | over every run of attempts, failures, resets and left-over workers, whatever an attempt delivers is the whole blob |
| LinkCalls.DownloadDelivers | web/static/js/link-download.js:404-449 | for every file that is not empty some run of it delivers the file |
| LinkCalls.WorkersChangeExactly | web/static/js/link-download.js:437-475 | every worker after any event: what it claims, reads, stores, tries again or gives up, and when |
| LinkCalls.ChunksChangeExactly | web/static/js/link-download.js:404-449 | every chunk after any event: written exactly by the worker that holds its array, with its whole range, or as the first range |
| LinkCalls.PageChangesExactly | web/static/js/link-download.js:314-449 | the page after any event: its phase, its attempts and the bytes it shows |
| LinkGuarantees.ChunksAreRanges | web/static/js/link-download.js:437-445 | whoever wrote it, a chunk in any attempt's array is exactly its range of the file |
| LinkGuarantees.EachIndexOnce | web/static/js/link-download.js:437-449 | in every attempt no two workers hold an index; while the present one runs, a claimed index not in its array is with one of its workers, which write to that array |
| LinkGuarantees.RangesPartition | web/static/js/link-download.js:437-445 | every byte of the file is in exactly one requested range |
| LinkGuarantees.CounterIsExactly | web/static/js/link-download.js:314-318 | a new attempt's counter is its completed plus in-flight bytes at every moment of every run until its reset, and the clamp loses nothing, if and only if no worker of an earlier attempt is still reading when it begins |
| LinkGuarantees.FirstAttemptCounts | web/static/js/link-download.js:314-318 | the page's first attempt counts exactly |
| LinkGuarantees.LeftOverLosesBytes | web/static/js/link-download.js:355-367 | for every file of three chunks or more, a run in which one worker gives up, the page is reset, and another worker's failing response makes the clamp lose a byte; a new attempt cannot rely on its counter |
| LinkPage.DownloadPage.OpenAttempt | web/static/js/link-download.js:404-424 | is the machine's step: counter to zero and a new array |
| LinkPage.DownloadPage.ResetDownloadState | web/static/js/link-download.js:521-527 | is the machine's step: counter to zero, and the present array no longer the page's |
| LinkPage.DownloadPage.ClaimIndex | web/static/js/link-download.js:437-443 | is the machine's claim of the attempt's next index, for the array the page has at that moment |
| LinkPage.DownloadPage.ReadPart | web/static/js/link-download.js:369-402 | is the machine's read: the part, even one past the range, is counted and appended |
| LinkPage.DownloadPage.FailTry | web/static/js/link-download.js:451-475 | is the machine's retry: the bytes of the failed response are taken back, and after five the worker gives up |
| LinkPage.DownloadPage.EndResponse | web/static/js/link-download.js:451-475 | is the machine's end of a body: stored in the array held since the claim exactly at the expected length, else taken back and tried again |
| UserRecords.CacheConverges | internal/storage/users.go:339-382 | histories with the same observations, in any order and with repeats, end with the same name, avatar, profile time and sync time |
| UserRecords.FoldShowsLatest | internal/storage/users.go:339-382 | and these are the latest observation's |
| UserRecords.NameFollows | internal/storage/users.go:339-364 | also a late profile or one from the future: its time counts as at most now, and its name and avatar are shown exactly unless the row's are newer |
| UserRecords.DeletionIsFinal | internal/storage/users.go:310-333 | a row ends as a tombstone, erased, if and only if the history contains a deletion anywhere |
| UserRecords.LockedStaysLocked | internal/storage/users.go:365-374 | sources that do not report the account state leave a locked row locked |
| UserRecords.ActiveExactly | internal/storage/users.go:365-381 | in every history without a deletion the row is inactive, as locked, if and only if the latest source that knows about locks says so |
| UserRecords.TakesInExactly | internal/storage/users.go:310-345 | an observation changes the row exactly when it names this user, with a name that is not blank, or is its deletion, and the row is no tombstone |
| UserRecords.RowsAreCoherent | internal/storage/users.go:375-381 | in every history an active row has no reason and no deactivation time and any other row has one |
| UserSync.NameGoesToLatest | internal/storage/users.go:293-308 | another row changes exactly if it is active with a recorded active user's name and an older observation: it is then stale and first in the queue |
| UserSync.RecordIsObservation | internal/storage/users.go:268-291 | recording a profile in the table does to its row what the row's history says, and nothing for a tombstone or without an id or a name |
| UserSync.ConfirmSettles | internal/storage/users.go:270-308 | confirming a due row settles it, and demotion never unsettles a row this run has settled, because directory names are unique |
| UserSync.PendingKept | internal/services/user_cache.go:266-304 | a demoted row only moves further behind the cursor, so listed and missing rows stay pending and are handled once |
| UserSync.UserCache.RecordCNSProfile | internal/storage/users.go:268-291 | writes the row and demotes older holders of the name, nothing for a tombstone, refused without id or name |
| UserSync.UserCache.MarkUserDeleted | internal/storage/users.go:310-333 | writes the tombstone, and reports it, exactly for a positive id not yet deleted |
| UserSync.UserCache.ListUsersToVerify | internal/storage/users.go:152-165 | the first due rows after the cursor in order; any left out lie after the last |
| UserSync.UserCache.ConfirmBatch | internal/services/user_cache.go:275-301 | each listed row the lookup answers is confirmed and settled, each it leaves out joins the missing in order, and other rows stay or are demoted |
| UserSync.UserCache.DeleteMissing | internal/services/user_cache.go:311-336 | single lookups: the unknown users among the missing are erased, exactly, the others confirmed, and other rows stay or are demoted |
| UserSync.UserCache.ConfirmDue | internal/services/user_cache.go:265-304 | the batch loop with its cursor, limits and early ends: the missing are those left out of everything listed, and every due row is listed, up to 2000, or demoted before its turn |
| UserSync.UserCache.VerifyWithDirectory | internal/services/user_cache.go:258-345 | a pass that did not fail is held if and only if the rows its batch lookups left out exceed the allowance, which it reports; held, it erases nobody; otherwise it settles every row it listed and erases exactly the unknown ones; it lists every due row, up to 2000, that is not demoted before its turn |
| UserSync.UserCache.SyncUsers | cmd/admin/main.go:754-782 | the run ends, since each pass that continues settles rows for good; deletions never exceed the budget, whose remainder never turns negative; the counts are those of the rows settled and erased; erased users are not in the directory; a held end had more missing than was left of the budget; a failed one had a failed call or a user without a name; a clean end leaves no row due |
| DeviceTrust.StepInv | internal/storage/postgres.go:361-495 | every call, however it spells device ids, keeps: versions issued 1, 2, 3 with only the last active, copies only of it and only with unrevoked devices, pending enrollments of unrevoked devices, file keys for issued versions |
| DeviceTrust.StepHolds | internal/storage/postgres.go:361-495 | and a call that spells its device id as the row does keeps a standard holder once a key exists |
| TrustGuarantees.TrustChangesExactly | internal/services/device_identity.go:61-223 | after any step, under any spelling, a device is trusted if and only if the step granted it the key or it was trusted and no recovery or removal revoked it |
| TrustGuarantees.TrustIsRooted | internal/services/device_identity.go:276-317 | after any run, under any spellings, a device is trusted if and only if some event granted it the active key: setup, recovery, migration, adoption, or approval with the right code by a device trusted at that moment, and none since revoked it |
| TrustGuarantees.RegisteringNeverTrusts | internal/services/device_identity.go:61-161 | once an account has a key, registering or re-registering any device, revoked or not, changes nobody's trust |
| TrustGuarantees.RegisterTellsTrust | internal/services/device_identity.go:104-161 | a registration that is not refused hands out the key exactly to a device that is trusted then; a refused one changes no trust |
| TrustCalls.RegisterAnswers | internal/services/device_identity.go:65-161 | a registration that may write its row asks for enrollment if and only if the account has a key and the device is not trusted, for migration if and only if there is no key and an unrevoked device or this one holds the legacy key, for a setup if and only if there is neither and no complete key came along, and else hands out the newest version |
| TrustCalls.RecoverAnswers | internal/services/device_identity.go:168-181 | a recovery gives the next version exactly to a device seen as standard with a complete key and an id that is not another account's |
| TrustGuarantees.RecoveryIsExclusive | internal/storage/postgres.go:430-495 | after a recovery the device is the only trusted and only unrevoked one, nothing can be approved, and no legacy key is left |
| TrustGuarantees.RefusedApprovalStoresKey | internal/services/device_identity.go:276-317 | with the check and the update on two clocks, either ahead, an approval stores the key yet is refused if and only if it is granted, checked no later than the expiry and updated no earlier; it succeeds if and only if granted and updated before |
| TrustGuarantees.ApprovalAcrossExpiry | internal/storage/postgres.go:996-1025 | a run from a new account in which a laptop's approval, begun a second before the expiry, trusts the phone and reports an error |
| TrustGuarantees.ClosedEnrollmentGrantsNothing | internal/storage/postgres.go:1027-1074 | a rejected or withdrawn enrollment keeps its answer for ever and never grants anything |
| TrustCalls.ApprovedIsClosed | internal/storage/postgres.go:996-1025 | a successful approval marks the enrollment approved and trusts its device; a second approval, a rejection or a withdrawal is refused |
| TrustCalls.ApproverAnswers | internal/services/device_identity.go:276-331 | approving and rejecting succeed, or are refused for each reason, exactly when |
| TrustCalls.NotFoundExactly | internal/services/device_identity.go:287-296 | an answer finds no enrollment if there is none, or if its update comes after the expiry, and then the key is stored |
| TrustCalls.RequesterAnswers | internal/services/device_identity.go:225-246 | asking for an enrollment and withdrawing it: done, unchanged or refused, exactly when |
| TrustCalls.MigrationAnswers | internal/handlers/identity_migration.go:56-181 | starting a migration and adopting its key: each answer exactly when |
| TrustCalls.EnrollmentsChangeExactly | internal/storage/postgres.go:908-1109 | every enrollment after any event: the first answer stands, and a pending one lapses with a recovery, its device's removal or its time |
| TrustCalls.DevicesChangeExactly | internal/storage/postgres.go:361-495 | every device after any event: it comes and revives by registering or recovering, keeps its first kind, and is revoked exactly by another's recovery or its removal as an approver |
| TrustCalls.AccountChangesExactly | internal/storage/postgres.go:430-495 | legacy copies stay until a recovery, and the escrow comes with a started migration alone |
| TrustCalls.RemovalAnswers | internal/storage/postgres.go:1079-1109 | a removal succeeds exactly for an unrevoked approver |
| TrustCalls.CodesMatchExactly | internal/services/device_identity.go:294-296 | two codes are the same if and only if their trimmed texts agree letter by letter, upper or lower |
| TrustCalls.TrimIsCore | internal/services/device_identity.go:294-296 | trimming takes the spaces at both ends and nothing else |
| TrustGuarantees.FileKeysOnlyRise | internal/storage/identity_rescue.go:50-81 | a file key changes version only by a rescue, from an older one to the active one |
| TrustCalls.FileKeysChangeExactly | internal/storage/identity_rescue.go:50-81 | every file key after any event: stored and migrated for the newest version only, changed exactly by a rescue to it |
| TrustCalls.FileKeysAnswer | internal/storage/legacy_user_key.go:128-152 | storing, migrating and rescuing file keys: each answer exactly when |
| TrustGuarantees.StandardDevicesIssueKeys | internal/services/device_identity.go:81-98 | in every run whose registrations and recoveries spell device ids as their rows do, every key version was issued by a device that is a standard one to this day |
| TrustGuarantees.IssuersExactly | internal/storage/postgres.go:400-408 | this holds in every run whose registrations and recoveries use given spellings if and only if each of them is the id's text as the database writes it |
| TrustGuarantees.KeyCustody | internal/storage/postgres.go:400-495 | once there is a key a standard device is trusted, in every run whose registrations and recoveries use given spellings, if and only if each of them is the id's text as the database writes it |
| TrustGuarantees.KeyVersions | internal/storage/postgres.go:675-707 | over every run an account that ever had a key has exactly one active version, the highest issued, and no file key above it |
| TrustGuarantees.ApproverRecovers | internal/services/device_identity.go:81-98 | a run in which a laptop sets up a key and approves an approver, whose recovery is refused under its id's text and granted under another spelling: it alone is then trusted, and has issued version 2 |
| DeviceService.DeviceStore.DoRegister | internal/services/device_identity.go:61-161 | the call's reads, guards and writes are the registration step, with the kind looked up by the request's spelling and the row written under the id it stands for |
| DeviceService.DeviceStore.GetDeviceKind | internal/storage/postgres.go:400-408 | finds the kind only under the text of the row's id, and leaves the requested kind otherwise |
| DeviceService.DeviceStore.CreateOrUpdateUserDevice | internal/storage/postgres.go:361-398 | an upsert of the id the spelling stands for, which revives a revoked device and keeps its kind, refused exactly for another account's id |
| DeviceService.DeviceStore.InsertIdentityKeyWithEnvelope | internal/storage/postgres.go:675-707 | adds key and creator's copy together, or nothing if the version or an active key exists |
| DeviceService.DeviceStore.DoRecover | internal/services/device_identity.go:163-181 | is the recovery step, with every refusal and the kind looked up by the request's spelling |
| DeviceService.DeviceStore.RecoverIdentityKey | internal/storage/postgres.go:430-495 | the recovery transaction's statements give the recovered account, or for another account's device id roll everything back |
| DeviceService.DeviceStore.DoApprove | internal/services/device_identity.go:276-317 | check, envelope, and the guarded update at its own later time are the approval step |
| DeviceService.DeviceStore.RemoveApproverDevice | internal/storage/postgres.go:1076-1109 | is the removal step |
| DeviceService.DeviceStore.StartIdentityMigration | internal/handlers/identity_migration.go:56-112 | is the migration step, with every refusal in the handler's order |
| DeviceService.DeviceStore.AdoptIdentityKey | internal/handlers/identity_migration.go:138-181 | is the adoption step; a stale escrow is refused |
| DeviceService.DeviceStore.CreateEnrollmentRequest | internal/services/device_identity.go:225-246 | is the enrollment step; an open request is kept, and one whose time is up but still pending blocks a new one |
| DeviceService.DeviceStore.RejectEnrollment | internal/services/device_identity.go:319-331 | is the rejection step |
| DeviceService.DeviceStore.RescueLockedFileKeys | internal/storage/identity_rescue.go:50-81 | re-wraps exactly the given rows still locked for the old version, each once, and counts them |
| DeviceService.DeviceStore.StoreMigratedOwnerEnvelopes | internal/storage/legacy_user_key.go:128-152 | stores a key exactly for the given files that have none, and counts them |
| KeyPaging.KeyTable.ListPage | internal/storage/identity_rescue.go:27-48 | the first rows after a file in order, up to the page size, and the count of those after them |
| KeyPaging.KeyTable.Save | internal/storage/identity_rescue.go:50-81 | changes exactly the given rows still wrapped for the old version and counts them; a failed request changes nothing |
| KeyPaging.KeyTable.RewrapPages | web/static/js/crypto.js:505-532 | paging over the shrinking set visits each initial row at most once in order, exactly once if complete; seen plus remaining is constant; a pass is complete exactly when no request of it failed, and leaves exactly the rows the key does not open |
| KeyPaging.KeyTable.RescueLockedFileKeys | web/static/js/crypto.js:495-536 | passes for several old keys change a row only when a held key of its version opened it; they are complete exactly when no request failed, and then give the closed form |
| KeyPaging.RescueLeavesUnopenable | web/static/js/crypto.js:495-536 | which leaves locked exactly the file keys no held key of their version opens |
| KeyPaging.KeyTable.MigrateFiles | web/static/js/identity-migration.js:122-171 | the migration shows a constant total and, exactly when no request failed, migrates all files the user key opens, counts them, and no others |
| Tunnels.StepInv | internal/storage/tunnels.go:132-276 | every handler call, however it spells device ids, keeps: rows and envelopes under the ids' texts, envelopes only once active, and a life of at most a day |
| Tunnels.StepOrderly | internal/storage/tunnels.go:132-276 | and unless it is a join under another spelling it keeps: one row per device, or per user without one, and no envelope beside an unapproved row or for another key |
| TunnelGuarantees.DeclinedDeviceStaysOut | internal/storage/tunnels.go:364-401 | a declined device never has a row or an envelope in the tunnel again, in every run whose joins use given spellings, across purges, expiry and new joins, if and only if each of these is the id's text as the database writes it |
| TunnelGuarantees.DeclinedIsRefused | internal/storage/tunnels.go:157-172 | and every later join that names it in one of these spellings is refused, under exactly the same condition |
| TunnelGuarantees.DeclinedReturns | internal/storage/tunnels.go:157-222 | a run in which a guest's device is declined and joins again under another spelling |
| TunnelGuarantees.DeclinedKeptOut | internal/storage/retention.go:98-116 | over every run, while joining is possible a rejection of the declined user, and of the text of the declined device's id, exists that no purge can reach: it is younger than a day when the tunnel expires |
| TunnelGuarantees.DeclinedUserGainsNoRow | internal/storage/tunnels.go:132-266 | a declined user never gains a row |
| TunnelGuarantees.RowsChangeOnlyByRight | internal/storage/tunnels.go:264-276 | a row's key changes only by a join of its owner under the row's own spelling, to the database's text of the new key, which drops the old envelope; its owner and device never; only the host's approval admits it |
| TunnelCalls.ApprovedByHost | internal/storage/tunnels.go:345-362 | over every run a participant is approved if and only if the host approved it since its row was added, or it is the row the tunnel was started with |
| TunnelCalls.JoinsExactly | internal/storage/tunnels.go:138-213 | a join is let in, or refused for each reason, exactly when: by the owner of the first row with its device's text, or by anybody if there is none |
| TunnelCalls.RowsChangeExactly | internal/storage/tunnels.go:138-401 | every row after any event: a new one has the caller's user or token and device and is not approved; approval, new key and removal happen exactly when |
| TunnelCalls.EnvelopesChangeExactly | internal/storage/tunnels.go:571-589 | every envelope after any event: it comes exactly by the host's first push for an approved row of the device, with that row's key, and goes with a declined device or the tunnel |
| TunnelCalls.TunnelChangesExactly | internal/storage/tunnels.go:403-439 | the tunnel after any event: joined, started, ended and deleted exactly when, its host and times never changed |
| TunnelCalls.RejectionsChangeExactly | internal/storage/tunnels.go:366-401 | every rejection after any event: made by declining, gone with an old enough purge of a closed tunnel or with the tunnel |
| TunnelCalls.HostIsTold | internal/handlers/tunnels.go:660-729 | approving and declining: each answer exactly when |
| TunnelCalls.PusherIsTold | internal/handlers/tunnels.go:497-576 | pushing an envelope: each answer exactly when |
| TunnelCalls.CallerIsTold | internal/handlers/tunnels.go:190-313 | starting and leaving: each answer exactly when |
| TunnelCalls.ServesExactly | internal/handlers/tunnels.go:578-617 | a caller gets the envelope of its own device, or the host that of the initiator's, exactly if there is one and the tunnel is available |
| TunnelCalls.FindsExactly | internal/storage/tunnels.go:278-315 | the caller's row: a user's own, of this device if there is one, or a guest's of this device by its token; none only if there is none |
| TunnelCalls.SomethingIsFound | internal/storage/tunnels.go:278-315 | every caller has such a row or none |
| TunnelGuarantees.RejoinChangesExactly | internal/storage/tunnels.go:225-244 | the code compares the stored key's text with the request's bytes, so a reformatted key is written again: a rejoin still changes the row if and only if the key is another one as the database writes it, and never loses an envelope |
| TunnelGuarantees.OnlyApprovedAreServed | internal/handlers/tunnel_auth.go:38-68 | whoever fetches an envelope is the host or approved, and a participant gets the one for its present key, in every run whose joins use given spellings, if and only if each of these is the id's text as the database writes it |
| TunnelGuarantees.UnapprovedServed | internal/handlers/tunnel_auth.go:38-68 | a run in which a second guest joins under another spelling of an approved device's id and is served its envelope without an approval |
| TunnelGuarantees.StartsExactly | internal/storage/tunnels.go:403-439 | a confirmation starts a session if and only if it is the host's user, or in a guest's tunnel a guest that names and owns the initiator's device |
| TunnelGuarantees.AdmittedGetsKey | internal/handlers/tunnels.go:497-576 | for hosts with an account and guest hosts alike, and the earliest row of a device: after the approval the host can start if and only if it names its own device when a guest; then its push has the joiner served its key, and a second push is refused |
| TunnelGuarantees.NamelessGuestNeverStarts | internal/handlers/tunnels.go:190-248 | over every run a guest's tunnel without a device id is never active and holds no key envelope |
| TunnelGuarantees.MembershipHolds | internal/storage/tunnels.go:571-589 | one row per device, and an envelope only beside an approved participant with that key, after every run whose joins use given spellings, if and only if each of these is the id's text as the database writes it |
| TunnelService.TunnelStore.constructor | internal/handlers/tunnels.go:33-94 | starting a tunnel gives the initial state with the host's approved row |
| TunnelService.TunnelStore.FindRow | internal/storage/tunnels.go:178-206 | finds the earliest row whose device has this text, or of the user without a device |
| TunnelService.TunnelStore.JoinTunnel | internal/storage/tunnels.go:132-266 | is the join step: rejections and rows looked up by the request's spelling, the new row under the id it stands for; a token is issued exactly for a new guest row |
| TunnelService.TunnelStore.RejectTunnelParticipant | internal/storage/tunnels.go:364-401 | is the rejection step; the host's row is refused |
| TunnelService.TunnelStore.PushParticipantEnvelope | internal/handlers/tunnels.go:497-576 | is the push step; an existing envelope is never replaced |
| TunnelService.TunnelStore.EndParticipation | internal/handlers/tunnels.go:250-313 | is the leave step; the last row takes the tunnel with it |
| TunnelService.TunnelStore.PurgeTunnelRejections | internal/storage/retention.go:98-116 | is the purge step |
| Transfers.EnvelopesFollowTransfers | internal/storage/postgres.go:823-848 | over every run a share envelope exists exactly while the transfer is pending or accepted, is readable exactly when accepted, and otherwise only the owner reads |
| Transfers.ExistsMeansTransferred | internal/storage/transfers.go:16-52 | only an earlier transfer to the same user is refused as existing; the envelope insert never conflicts |
| Transfers.AnsweredOnce | internal/storage/transfers.go:157-214 | over every run a transfer is answered at most once |
| Transfers.AnswerExactly | internal/storage/transfers.go:157-214 | an answer succeeds if and only if the transfer is pending and, to accept, its file neither deleted nor expired; it is then accepted or declined as asked, and readable if accepted |
| Transfers.ShareExactly | internal/handlers/sharing.go:129-207 | a share succeeds if and only if the sender owns the file, which is neither deleted nor expired, and the recipient is another user, ready, and was never sent it |
| Transfers.AcceptanceIsRooted | internal/storage/transfers.go:157-214 | over every run the transfer of a stored file is accepted if and only if its recipient accepted it while it was pending and the file available |
| Transfers.FilesChangeExactly | internal/storage/retention.go:18-59 | every file after any event: it comes under a new id, notes its deletion once, and goes exactly by a purge after that |
| Transfers.OwnersChangeExactly | internal/storage/legacy_user_key.go:128-152 | an owner's copy of the key comes with the file or by the migration and stays exactly as long as the file |
| Transfers.DeclinedStaysLocked | internal/storage/transfers.go:157-214 | a declined recipient never holds an envelope for the file again |
| Transfers.AcceptedStaysReadable | internal/storage/retention.go:18-59 | over every run an accepted transfer can be read exactly as long as the file is stored, which ends only after the file was deleted |
| Transfers.TransferStore.InsertTransfer | internal/storage/transfers.go:16-52 | writes transfer and envelope together exactly when neither exists |
| Transfers.TransferStore.ShareFile | internal/handlers/sharing.go:129-207 | is the share step; both rows are written or neither |
| Transfers.TransferStore.RespondToTransfer | internal/storage/transfers.go:157-214 | is the answer step |
| Transfers.TransferStore.PurgeDeletedFiles | internal/storage/retention.go:18-59 | is the purge step over the dependent tables |
| RateLimit.AdmittedExactly | internal/storage/coordination.go:15-41 | a request passes if and only if its window holds at most the limit of requests so far, whatever was purged between, in every run, if and only if the window is at most a unit longer than the purge horizon or the limit is zero |
| RateLimit.PurgesChangeNothing | internal/services/cleanup.go:197-205 | with the configured horizon every limiter decides every request as if nothing were ever purged |
| RateLimit.WindowAdmits | internal/storage/coordination.go:15-31 | a window lets through all its requests up to the limit and no more |
| RateLimit.AtMostTwiceTheLimit | internal/storage/coordination.go:15-31 | at most the limit passes per window and at most twice it in any interval of a window's length |
| RateLimit.TwiceIsReached | internal/storage/coordination.go:15-31 | twice the limit is reached, for every limit and window, if and only if the window has at least two units or the limit is zero |
| RateLimit.Store.CheckRateLimit | internal/storage/coordination.go:15-31 | the counting upsert is the machine's step, and the answer compares the new count |
| RateLimit.Store.PurgeRateLimitCounters | internal/storage/coordination.go:33-41 | is the machine's purge step |
| ReplicaJobs.RunsApart | internal/storage/coordination.go:89-125 | two runs of a job start at least an interval apart, the later after the earlier replica finished or lost its connection |
| ReplicaJobs.OverlapNeedsDisconnect | internal/storage/coordination.go:89-125 | runs overlap only when the earlier replica lost its connection in mid-run and that run has lasted for the interval |
| ReplicaJobs.OverlapHappens | internal/storage/coordination.go:89-125 | and then they can, for every interval |
| ReplicaJobs.ExecutingStarted | internal/storage/coordination.go:120-125 | over every run a replica executes the job exactly from a start of its own until it finishes |
| ReplicaJobs.NextRunIsOpen | internal/storage/coordination.go:89-125 | the next try starts if and only if the last run let its lock go, its interval is over, and the replica is not still executing the job |
| ReplicaJobs.JobStore.Claim | internal/storage/coordination.go:93-122 | try-lock and guarded claim are the machine's step |
| SharedRefresh.RedeemsExactly | internal/storage/coordination.go:43-79 | a caller redeems if and only if no stored result is fresh for it: none stored, purged, or ttl old when its transaction began; every other caller gets the latest stored result |
| SharedRefresh.TokenChangesExactly | internal/storage/coordination.go:47-87 | every event's effect on who waits since when, who holds the lock, what is stored and the latest redemption |
| SharedRefresh.TooEarlyExactly | internal/middleware/cns_auth.go:209-244 | a caller that began within ttl of the latest redemption redeems again if and only if that one's result was purged, or never stored while no older one is fresh |
| SharedRefresh.RedemptionsApart | internal/storage/coordination.go:43-79 | without purges and with every redemption stored, each redemption's begin is at least ttl after the one before, and while one is under way nobody else enters |
| SharedRefresh.EarlyGapsExactly | internal/storage/coordination.go:43-87 | when every transaction lasts at most a bound, a stored redemption is repeated by a caller that began a gap shorter than ttl after it, in some run, if and only if the gap is longer than ttl less the bound |
| SharedRefresh.FiveSecondsApart | internal/middleware/cns_auth.go:168-168 | with the service's ttl and timeouts that is more than five seconds |
| SharedRefresh.RefreshStore.Look | internal/storage/coordination.go:47-65 | returns the unexpired stored result, or keeps the lock exactly when the caller has to redeem |
| SharedRefresh.RefreshStore.Keep | internal/storage/coordination.go:67-79 | stores the result under the transaction's own time and ends it |
| GlyphMatch.PicksAreCommon | web/static/js/drop-membrane.js:290-298 | reused letters equal the new text's at their places and keep their order strictly |
| GlyphMatch.GlyphsShowText | web/static/js/drop-membrane.js:277-299 | the result reads exactly as the new text |
| GlyphMatch.LcsIsLongest | web/static/js/drop-membrane.js:277-288 | the recurrence is the length of a longest common subsequence, defined by matched pairs |
| GlyphMatch.WalkReusesLcs | web/static/js/drop-membrane.js:290-298 | as long as no cell has to wrap the walk reuses that many letters |
| GlyphWrap.ReusesAllExactly | web/static/js/drop-membrane.js:284-298 | for texts of lengths n and m, whenever letters are reused they are a longest common subsequence, for all such texts if and only if the shorter has fewer than 65536 letters or more than 131070, or both have 65536 |
| GlyphWrap.UnsafeFails | web/static/js/drop-membrane.js:284-298 | for every other pair of lengths, two texts that are matched one letter short |
| GlyphMorph.FillTable | web/static/js/drop-membrane.js:284-287 | every cell of the filled table is the recurrence's |
| GlyphMorph.WalkTable | web/static/js/drop-membrane.js:291-298 | the walk's glyphs are those of the recursive picks |
| GlyphMorph.MatchGlyphs | web/static/js/drop-membrane.js:277-299 | table and walk give these picks, with fresh keys in turn for new letters |
| GlyphMorph.Digit.Roll | web/static/js/drop-membrane.js:466-494 | the column shows the new digit, stays on the strip with room to roll, and travels less than a set in the direction the number moved; a jump is by whole sets |
| GlyphMorph.Digit.Settle | web/static/js/drop-membrane.js:459-464 | re-centring shows the same digit |
| LikeSearch.SearchIsLiteral | internal/storage/users.go:167-186 | the escaped pattern matches a folded name if and only if the name contains the folded query as plain text, for every query |
| LikeSearch.EscapedIsLiteral | internal/storage/users.go:185-186 | an escaped text matches exactly itself, whatever follows |

## Left out

- Transactions are single steps, as the database isolates them; an upload's finalize, cancel and each cleanup call, a device identity call, and a tunnel handler call are one step too, though an approval reads two clocks. Interleavings inside them are not modelled.
- UploadService.UploadStore.UploadChunk: one step for the write to a temporary name and the rename; a failed write, which leaves the old chunk, is the step that does not happen.
- UploadService.UploadStore.FinalizeUpload: leaves out the numeric code, file name and expiry; `marked` stands for whether the best-effort state update got through.
- Session and file ids are used once and a resent chunk carries the same bytes, as clients do; the upload machine has no purge of file rows, so a purged id never comes back.
- The orphan sweep against an upload created and assembled between its reading of sessions and of directories; its own comment limits the guarantee to sessions that existed at the read.
- Real cryptography: `Cipher` is any pair with dec(enc(x)) = x, sixteen more bytes, and nothing opens to a length other than its own minus sixteen; hashing, random ids and codes are fresh values and constant-time comparison is equality.
- FileFormat.EncryptFileChunked: encrypts all chunks in order; that uploads of earlier ones overlap is in ChunkUploads.
- LinkGuarantees.DownloadIsWhole: leaves out servers that ignore ranges and send the whole file at once. Where a body lies within the file it is the file's; past its end it may be anything. The page's meter, speed and messages are not modelled.
- Device ids arrive trimmed. `canon` (how the database reads the text of a UUID), `jsonb` (how it writes a key) and `fold` (EqualFold) are any functions; for tunnels the text of a UUID stands for itself and is already folded. Where a lookup without an order finds several rows the model takes the earliest. Verification codes are trimmed of ASCII space and compared with ASCII case folding only.
- A login or webhook recording users while sync-users runs: the run has no other writer, and the directory does not change under it. `fold` stands for LOWER and directory names are unique under it.
- Failures are parameters: which calls of a job fail, when its context ends, and whom a batch lookup omits by a fault; the answers that do come are the directory's.
- UserSync.UserCache.SyncUsers: command line parsing, the check that a directory is configured, and printing are left out.
- Two rows can still hold one name when the later observation arrives first; no global claim about unique names is made beyond `UserSync.NameGoesToLatest`.
- DeviceTrust.StepInv: an enrollment request and its withdrawal, whose ids the database reads as UUIDs so that their spelling makes no difference, take them as the rows show them; holders of the legacy user key are standard devices and an account has one active key at a time, the latter by the database's unique index.
- DeviceTrust models one account; device ids of others appear only as conflicts.
- KeyPaging.KeyTable.RewrapPages: no other writer during a pass; files are numbered by the order of their ids.
- KeyPaging.KeyTable.MigrateFiles: its notices are left out except for the total they show.
- Tunnels: a host's other actions (file lists, public keys) only read; the expired status is never written by the program and is left out; joins race a start only at handler calls.
- Transfers: which key version an envelope is wrapped for is in DeviceTrust; lists, counts and notifications only read.
- SharedRefresh.TooEarlyExactly: redemptions made without the store count as not stored; how one process coordinates those among its own requests is left out.
- RateLimit.AdmittedExactly: one clock for all replicas and the database, which never goes back.
- GlyphMorph.Digit.Roll: the picture in mid-roll and the blur; only positions are modelled. An over-long text means one of 65536 letters or more.
- LikeSearch.SearchIsLiteral: folding is letter by letter; letters whose lower case has another length are not modelled. Account status filters, order and limit of the search are left out.
- HTTP, cookies, routing, WebSockets, translations, page rendering, statistics, tiers and durations: plumbing or tables that would only add easy members.
