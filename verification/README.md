# Fuse Vault: a verified model of its stateful core

Fuse Vault keeps encrypted state on media that fail: SD sectors that may be lost, reordered or
torn until a sync, NOR flash pages that a cut leaves unreadable, and write-once memory whose bits
only ever set. The firmware stays consistent by the order of its writes. This project models that
firmware in Dafny and proves what the order is for, over every run, every fault and every cut.

## How to read it

Each file models one part of the firmware and is one module.

- `Card`, `FlashJournal.FlashChip`, `Otp.OtpMemory` are the media. `Card.Disk` keeps what reads
  return, what the last sync left and what was written since; a power loss picks, sector by sector,
  any value the sector was given since it was last synced, or a torn mixture of them that is not
  authentic. A torn data sector may hold any bytes. An operation on unreliable media may fail at
  any step, so every early exit of a method is also a cut at that step, and what a method ensures
  on failure is what holds at each cut. Where `reliable` is set nothing fails, and the contracts
  say what must then succeed; `steady` says the same of the other core, and `mountable` of the
  volume behind the headers.
- `FlashJournal`, `Enrollment`, `Vault`: the state log, the token slots, the vault's lifecycle.
- `BlockDevice`, `AuthStore`, `FidoStore`, `FreshDisk`, `FidoLifetime`: the overlay with its redo log,
  the authenticated sectors, the byte-addressed store, the disk a reset leaves, and the theorem over
  every run of it.
- `Snapshot`, `Relocation`, `ImageUpgrade`, `Migration`: the older two-bank store, moving an
  image's linked lists, and the restartable move from the older store into the journal.
- `UsbStorage`, `Hid`, `SessionTimeout`: the two-core transfer pipeline, CTAPHID framing, the idle
  timer and its mailbox.
- `Xts`, `Envelope`, `EnvelopeFormat`, `VolumeFormat`, `Policy`, `Bytes`: sector encryption, the
  sealed header and its bytes, the volume layout, the retry policy, byte records.

Cryptography is ideal: a MAC, a hash or a derived key is the term it was computed from, so equal
outputs mean equal inputs; a block cipher is any function with an inverse. Clocks, randomness and
the host's requests are parameters. Generation counters of the session are unbounded; the wrap of
32-bit sequence numbers and channel identifiers is modelled. `authorised` stands for the check that
the session is still open and of the right credential.

Four theorems quantify over whole runs: `FidoLifetime.Lifetime`, `Snapshot.Lifetime`,
`Vault.Lifetime` and `Enrollment.Lifetime`; `FlashJournal.RunNeverGoesBack` does so for the state
log, and `AuthStore.WriteRun` for the batches written between two openings of a store.

## Model

| member | source | states |
|---|---|---|
| FidoLifetime.Lifetime | src/shared/fido/store.c:395-565 | Any sequence of reads, writes, commits, resets, reopenings, initialisations, outside syncs and power losses, each failing or cut anywhere, behaves as one byte array: reads give its bytes, writes patch it, a commit makes all of it permanent at once, whatever returns after a cut is a value that was committed or being committed, and the store that is left stands for the last state |
| FidoLifetime.HandleCommit | src/shared/fido/store.c:426-433 | A commit that succeeds leaves exactly the current bytes for every later power loss; one that fails leaves the previous durable ones or these and closes the store |
| FidoLifetime.HandleReset | src/shared/fido/store.c:467-474 | A reset moves all at once to a disk whose engine image is empty but for one record with the given policy, or all ones without one; cut, the old disk or such a one returns |
| FidoLifetime.HandleReopen | src/shared/fido/store.c:541-552 | Closing and opening on the live card, with unsynced log sectors, drops what was not committed and nothing else, unless a control record is doubtful, when a careful caller stays closed |
| FidoLifetime.HandleInitialise | src/shared/fido/store.c:553-565 | An empty store is created on the live card in place of the old one; cut, the old disk or one of nothing but ones returns |
| FidoLifetime.HandleSync | src/shared/fido/store.c:275 | A sync by another user of the card loses nothing that could return and settles a doubtful record |
| FidoStore.FidoStore.Read | src/shared/fido/store.c:377-398 | Reads through sector splitting and the plaintext cache return the bytes of the abstract image |
| FidoStore.FidoStore.Write | src/shared/fido/store.c:377-399 | The image afterwards is the old one patched at the offset; until a commit nothing a power loss would recover has changed; without faults it succeeds where the bytes can be read and the log has two places left for each sector it touches |
| FidoStore.FidoStore.Commit | src/shared/fido/store.c:426-433 | At every cut the old home region or the whole overlay is recovered; success means only the latter; without faults it succeeds exactly if nothing was written or two sequence numbers remain |
| FidoStore.FidoStore.Reset | src/shared/fido/store.c:467-474 | At every cut the old disk is recovered, or an announced reset, or a region that already holds the new image: with a policy its data list is exactly one record with identifier 0x1123 and payload 1, policy, its other list is empty and all other bytes are ones, and without one all bytes are; without faults it succeeds exactly while two sequence numbers remain |
| FidoStore.FidoStore.FinishReset | src/shared/fido/store.c:443-466 | A reset found by an open completes to the disk its policy asks for, and can be cut and completed again |
| FidoStore.BlankIsErased | src/shared/fido/store.c:443-460 | The image a reset builds, read as the engine reads it, keeps that policy in the one record of its data list and nothing else |
| FreshDisk.FreshIsOne | src/shared/fido/store.c:451-456 | There is one such image: the two lists, the record and the ones around them leave no byte open |
| FidoStore.ErasedIsOne | src/shared/fido/store.c:443-460 | So for each policy a reset leaves one disk and no other |
| FidoStore.FidoStore.Initialise | src/shared/fido/store.c:553-561 | An empty store over arbitrary contents that can be opened, synced or not; cut, the region recovers as before or to a disk of ones; without faults it succeeds exactly if no authentic record is malformed and two sequence numbers remain |
| FidoStore.FidoStore.VerifyHome | src/shared/fido/store.c:434-442 | Accepts only when every sector of the rebuilt region authenticates |
| FidoStore.SectorPatch | src/shared/fido/store.c:377-383 | Storing the encryption of a sector changes exactly its 512 plaintext bytes |
| FidoStore.ChunkPatch | src/shared/fido/store.c:384-394 | Writing back a sector whose middle has changed is a patch of the middle only |
| BlockDevice.ReplayIsView | src/shared/fido/store.c:326-337 | Copying the log home in order yields the overlay's view, for any log of distinct targets |
| BlockDevice.LoggedView | src/shared/fido/store.c:338-354 | Logging a sector, new or already logged, changes exactly that sector of the view |
| BlockDevice.AnnouncedReplays | src/shared/fido/store.c:412-425 | However much of an announced transaction has reached the home region, replaying it gives its result: replay is idempotent under cuts |
| BlockDevice.CutControlWrite | src/shared/fido/store.c:306-317 | A control write, cut or not, leaves the old newest record or the new one and never damages the newest authentic one |
| BlockDevice.Device.ControlScan | src/shared/fido/store.c:289-305 | Returns the newest authentic record of the two, or that an authentic one is malformed |
| BlockDevice.Device.Read | src/shared/fido/store.c:326-337 | Reads return the view through the log |
| BlockDevice.Device.Write | src/shared/fido/store.c:338-354 | The view is replaced in the given range, while the durable home region and the control records stay as they were |
| BlockDevice.Device.Digest | src/shared/fido/store.c:400-411 | Accepts only logs whose entries authenticate and name distinct homes, and digests exactly them |
| BlockDevice.Device.WriteEntriesHome | src/shared/fido/store.c:415-417 | Whether or not the record is durable, at every cut some first entries of the log are on their way home and no other sector has changed; success means all of them read back from home |
| BlockDevice.Device.Replay | src/shared/fido/store.c:412-425 | From any region an open may find: at every cut what was announced is recovered, and success leaves it in the home region under a clean record |
| BlockDevice.Device.Commit | src/shared/fido/store.c:426-433 | At every cut the home region as it was or the whole view is recovered; without faults it succeeds if and only if the log is empty or two sequence numbers remain |
| BlockDevice.Device.Open | src/shared/fido/store.c:541-552 | What an open reads is what any power loss before its end would recover, from a powered-up card or from one that was only closed; without faults it succeeds if and only if that is not broken and the numbers are not exhausted |
| BlockDevice.OpenableRecovers | src/shared/fido/store.c:541-552 | It suffices that the control records and what the newest one stands for are durable; the rest of the region may be unsynced |
| BlockDevice.ReplaySafeExactlyWhenDurable | src/shared/fido/store.c:412-418 | However many entries a replay has written home before its sync, the old or the new disk is recoverable if and only if the READY record is durable or what is home is harmless: nothing changed, or the one sector of the whole log that changes cannot be torn |
| BlockDevice.DataTears | src/shared/fido/store.c:412-418 | A data sector that changes is never harmless |
| BlockDevice.CommitThenOpen | src/shared/fido/store.c:306-317 | After a commit whose record was accepted, an open replays it; at any point of that before its sync a power loss recovers the old or the new disk if and only if the record had been synced or what is home is harmless |
| BlockDevice.RetireThenWrite | src/shared/fido/store.c:412-425 | After a commit whose last record was accepted, the next transaction's first log write keeps the disk recoverable if and only if that record had been synced |
| BlockDevice.LastCommit | src/shared/fido/store.c:426-433 | With one number left, on a card without faults: opening and writing a sector succeed, the commit announces the log and fails, and no open ever succeeds again |
| BlockDevice.NeverOpens | src/shared/fido/store.c:541-552 | A region whose newest record announces a log under the last number stays closed over every run of opens and power losses |
| AuthStore.AuthStore.Write | src/shared/storage/auth_store.c:153-169 | The written addresses read back and all others are undisturbed; at every cut, with any batches unsynced before this one, each address reads as the last sync left it, as one of these batches gave it or as an error, or, only if exposed, as an earlier write, and an address none of them is for reads as the sync left it |
| AuthStore.WriteRun | src/shared/storage/auth_store.c:91-169 | Any batches with any syncs between them, each failing or cut anywhere: the card at its last settling sync, no earlier than the last sync that succeeded, had all batches before that in place, and a power loss leaves each address so or as the batches after it allow; while the store has not failed, it can leave each address in exactly those ways |
| AuthStore.SinceReads | src/shared/storage/auth_store.c:153-169 | Whatever ciphertexts and tags were written since the last sync and however they are torn: what is read at an address comes from the sync, from a batch for it, or is an error or an exposed leftover |
| AuthStore.ReturnsExactly | src/shared/storage/auth_store.c:153-169 | After any batches since a sync a power loss may leave an address reading r if and only if r is what the sync left, what some batch gave it, an error and a batch changes its sector or tag, or the leftover it is exposed to |
| AuthStore.TagsWriteSince | src/shared/storage/auth_store.c:161-167 | Stamping tags over metadata a cut has torn adds nothing but this batch to what may be read |
| AuthStore.AuthStore.ReadBatch | src/shared/storage/auth_store.c:170-201 | Gives for each address its authenticated contents or that it is unset, and reports corruption only when some address is corrupt |
| AuthStore.AuthStore.Format | src/shared/storage/auth_store.c:41-68 | Over arbitrary stale media every address reads unset and no address has a leftover tag |
| AuthStore.AuthStore.Load | src/shared/storage/auth_store.c:118-143 | The tag cache covers the addresses and equals the medium it shadows |
| AuthStore.AuthStore.Publish | src/shared/storage/auth_store.c:91-117 | Sets just the bits of the range; at every cut a set bit is an old one or one of the range |
| AuthStore.UpdatedReads | src/shared/storage/auth_store.c:153-169 | After a complete write every written address reads back and every other one as before, neighbours in the same tag or bitmap sector included |
| AuthStore.PublishedReads | src/shared/storage/auth_store.c:91-117 | A bit that is set finds its tags and ciphertext in place: each address reads old or new |
| AuthStore.CutCleanExactlyWhenNoneExposed | src/shared/storage/auth_store.c:153-169 | Every image of a cut write reads old, new or an error if and only if no written address is exposed: none has a tag of an unseen earlier write with other contents over a sector that changes |
| AuthStore.WritesIssue | src/shared/storage/auth_store.c:161-167 | The data and tag writes of a batch on a settled card produce just the states that theorem is about |
| AuthStore.NoneExposed | src/shared/storage/auth_store.c:153-169 | An address that reads back, or whose metadata sector was never published, is not exposed |
| AuthStore.TwoCutsRevive | src/shared/storage/auth_store.c:153-169 | From any freshly formatted store, a neighbour's write and two cut writes of an address leave it reading as the first of them, which no reader ever saw |
| AuthStore.ValidVolumeOpens | src/shared/storage/auth_store.c:8-21 | A valid descriptor opens a store whose bitmap, tag and data regions follow one another within the card, and exactly the fitting sizes do |
| Snapshot.Lifetime | src/shared/fido/store.c:162-257 | Over every run of commits, reopenings, outside syncs and power losses each opening gives the one image that survived, a commit replaces it at once, a cut one leaves the old or the new, and the store that is left stands for the last state |
| Snapshot.SnapshotStore.Commit | src/shared/fido/store.c:245-257 | At every cut the region opens to the old image or the new one, given that the old one was durable |
| Snapshot.SnapshotStore.Open | src/shared/fido/store.c:162-175 | Gives the whole image the selected manifest vouches for, enlarged if small, or nothing but zeros |
| Snapshot.SnapshotStore.Scan | src/shared/fido/store.c:113-130 | Finds the one authentic manifest of the highest generation; two equal ones are refused |
| Snapshot.SnapshotStore.WriteSnapshot | src/shared/fido/store.c:176-202 | Until its manifest is written the region names what it named before; on success it durably names this image |
| Snapshot.SnapshotStore.Initialise | src/shared/fido/store.c:203-222 | After success the region durably opens to the blank image, whatever it held |
| Snapshot.CurrentNames | src/shared/fido/store.c:113-130 | A durable manifest with an older or no rival is what every power loss leaves selected, with its image intact |
| Snapshot.CommitSafeExactlyWhenDurable | src/shared/fido/store.c:176-202 | Invalidating the other bank leaves some snapshot selected after every power loss if and only if the current manifest is durable |
| Snapshot.CommitThenOpen | src/shared/fido/store.c:245-257 | Opening on a manifest whose write was accepted and committing again is safe if and only if that manifest had been synced |
| Snapshot.DigestDecodes | src/shared/fido/store.c:134-156 | Decrypting what an image was encrypted to gives the image back, sector by sector through all layers |
| Migration.OpenStore | src/shared/fido/store.c:541-552 | Whatever was under way, opening gives the one disk the region stood for, and however often it is cut the next open gives the same; without faults it succeeds |
| Migration.MigrateStart | src/shared/fido/store.c:526-540 | At every cut the region stands for the same disk: by the old bank, by its staged copy or by the finished home region |
| Migration.MigrateFinish | src/shared/fido/store.c:489-525 | From a durable MIGRATE record the result is the staged image moved to the end of the larger disk; a cut leaves the migration to be done again or done |
| Migration.Prepare | src/shared/fido/store.c:526-538 | The selected snapshot is staged durably outside the home region and stands for the same disk as the bank it was copied from |
| Migration.OldRead | src/shared/fido/store.c:476-488 | Any range of the staged source reads as its decrypted image |
| Migration.MoveList | src/shared/fido/store.c:489-525 | Walking a list of the source rewrites exactly its links in the destination, and succeeds without faults whenever the list is well formed |
| Migration.CopyImage | src/shared/fido/store.c:489-525 | The destination is ones followed by the source |
| Relocation.MovedRelocates | src/shared/fido/store.c:489-525 | Moving an image by any distance keeps both lists: same records in the same order, offsets shifted, links consistent, payload unchanged |
| Relocation.RelocationIsUnique | src/shared/fido/store.c:489-525 | That leaves no freedom: two such images are equal |
| Relocation.UpgradeIsMove | src/shared/fido/image_upgrade.c:41-52 | The upgrade in memory and the move in the migration produce the same bytes |
| Relocation.MovesCompose | src/shared/fido/image_upgrade.c:31-52 | Moving twice is moving once by the sum, so an image enlarged before migrating ends up the same |
| ImageUpgrade.ValidList | src/shared/fido/image_upgrade.c:15-30 | Accepts exactly the lists whose offsets strictly descend, whose back links agree and whose records fit |
| ImageUpgrade.Relocate | src/shared/fido/image_upgrade.c:31-40 | Rewrites the links of the list's records and nothing else |
| ImageUpgrade.Upgrade | src/shared/fido/image_upgrade.c:41-52 | Succeeds exactly on blank images and those with two valid lists; then both lists have the same records in order at shifted offsets and every other byte moved unchanged; on failure nothing changes |
| FlashJournal.RunNeverGoesBack | src/shared/security/journal.c:82-112 | Over every run of commits, cut anywhere, a load gives the last committed state, one being committed since, or that the log is damaged; never an older one and never empty after a first commit began |
| FlashJournal.Journal.Commit | src/shared/security/journal.c:87-112 | Wherever it is cut a load gives the old result, the new state or damage; without faults it succeeds exactly when the sequence and state are acceptable, so a blank record can always be found |
| FlashJournal.Journal.Scan | src/shared/security/journal.c:59-81 | One pass decides what a load answers: the newest agreed record, emptiness or damage |
| FlashJournal.Journal.Load | src/shared/security/journal.c:82-86 | Answers the one result the pages stand for |
| FlashJournal.Journal.Reserve | src/shared/security/journal.c:87-105 | Finds the next record of the bank in use or, when it is full, the first of the other bank after erasing that, which leaves the newest record where it is |
| FlashJournal.CheckState | src/shared/security/journal.c:28-35 | Accepts exactly the states a record may hold |
| FlashJournal.LoadsIsFunctional | src/shared/security/journal.c:59-86 | Any pages answer at most one result |
| FlashJournal.Cut | src/shared/security/journal.c:105-112 | A record whose programming was cut anywhere is the old log, the new state or damage |
| Otp.MoveIsAtomic | src/shared/security/enrollment.c:43-54 | Each legal mask move sets one bit, so a cut shows the old or the new state |
| Otp.DirectRevocationExposes | src/shared/security/enrollment.c:175-183 | Revoking an abandoned slot in one write could show it as ready; hence the REVOKING step |
| Otp.TornKeepsNeighbours | src/shared/security/enrollment.c:43-54 | A torn write of one packed field leaves the seven others in its row alone |
| Enrollment.Lifetime | src/shared/security/enrollment.c:131-274 | From untouched masks, over every run of open, prepare, provision, load, commit, destroy and destruction requests with resets and cuts: slots never compete, a ready slot always finds its non-empty log, and every slot before the last used one is retired |
| Enrollment.RunMovesForward | src/shared/security/enrollment.c:37-54 | Over any run a slot's state only advances, so a revoked slot is never ready again |
| Enrollment.UsableLogNeverGoesBack | src/shared/security/enrollment.c:212-240 | While a slot stays ready, over any run, its token stays and its log never answers an older state |
| Enrollment.LastBurnIsEnough | src/shared/security/enrollment.c:100-112 | Once the highest revoked slot is burned every revoked slot is |
| Enrollment.ResumeDestruction | src/shared/security/enrollment.c:150-154 | After a cut destruction a start finds that slot and burning it leaves no revoked token readable; without faults it succeeds |
| Enrollment.EnrollmentDevice.MaskWrite | src/shared/security/enrollment.c:43-54 | Cut or not, the field holds the old or the new state and every other field is unchanged |
| Enrollment.EnrollmentDevice.InspectMask | src/shared/security/enrollment.c:74-91 | Accepts exactly unambiguous masks and finds their ready and last revoked slots |
| Enrollment.EnrollmentDevice.FinishBurn | src/shared/security/enrollment.c:108-112 | Only sets bits of that token, can be resumed, and ends with it all ones |
| Enrollment.EnrollmentDevice.PrepareFlash | src/shared/security/enrollment.c:131-140 | Erases only while the mask is untouched; without faults it succeeds exactly when mask and tokens are blank |
| Enrollment.EnrollmentDevice.Open | src/shared/security/enrollment.c:141-159 | Without faults: ready exactly if the mask is unambiguous and the ready slot's log answers a state of its own; terminal exactly if slots are only untouched or revoked and some is revoked; setup is needed exactly if some slot was interrupted, or all are untouched and some token row is occupied; fresh exactly if mask, tokens and log are all blank. With faults nothing else is ever answered |
| Enrollment.EnrollmentDevice.RetireAbandoned | src/shared/security/enrollment.c:172-185 | Every interrupted slot ends revoked and burned and untouched slots stay untouched |
| Enrollment.EnrollmentDevice.ChooseSlot | src/shared/security/enrollment.c:186-194 | The first unused slot with blank rows |
| Enrollment.EnrollmentDevice.Provision | src/shared/security/enrollment.c:163-211 | The log is erased only while no slot is ready, and a slot becomes ready only over a log that already loads, with the token given and the default policy; order and safety are kept at every cut; without faults it succeeds exactly if a blank slot is left, or if the ready slot's vault is still empty |
| Enrollment.EnrollmentDevice.Load | src/shared/security/enrollment.c:212-230 | The anchored state of a ready slot, or the terminal projection of a revoked one |
| Enrollment.EnrollmentDevice.Commit | src/shared/security/enrollment.c:231-240 | What governs afterwards governed before or is this state |
| Enrollment.EnrollmentDevice.GetBinding | src/shared/security/enrollment.c:241-251 | Only a ready slot in an empty or active state yields a binding, and only for its own volume; without faults every such one does |
| Enrollment.EnrollmentDevice.Destroy | src/shared/security/enrollment.c:252-259 | Nothing new governs, the slot advances to revoked, its token is burned and no other is touched |
| Enrollment.EnrollmentDevice.RequestDestruction | src/shared/security/enrollment.c:263-274 | At every cut what governs governed before or awaits destruction; success leaves the slot revoked and burned |
| Vault.Lifetime | src/shared/security/vault.c:117-234 | Over every run of recover, unlock, reverify, create, change, destruction requests and power losses with faults: evaluations since the last durable reset never exceed the recorded attempts nor those the maximum; once no live state governs no credential is evaluated at all, limit or no limit; a created vault keeps its master key in the anchored header and in every session; and for a careful caller a copy of the anchored header survives every power loss |
| Vault.Platform.Authenticate | src/shared/security/vault.c:149-178 | At most one evaluation, none of any kind once stopped, and success means the secret opens the anchored header; the governing state only counts, until a wrong secret at the limit locks or destroys it as its policy says; without faults the secret decides: the right one is accepted, a wrong one rejected, and the last wrong one denied |
| Vault.Platform.Commit | src/shared/security/vault.c:21-26 | Without faults a state that may follow the anchored one is committed if and only if the sequence number is not at its maximum, where nothing changes; what governs afterwards governed before or is the new state |
| Vault.CheckState | src/shared/security/vault.c:14-20 | Accepts exactly states whose count, mark, generation and policy agree |
| Vault.Platform.Charge | src/shared/security/vault.c:158-165 | Under a limit the attempt is durable and marked before the credential is looked at, and exceeds all evaluations so far; without faults it is refused only at the maximum of the sequence numbers |
| Vault.Platform.Record | src/shared/security/vault.c:171-175 | The count is cleared only when a successful outcome is durable; otherwise only the mark is |
| Vault.Platform.Limit | src/shared/security/vault.c:27-40 | An active vault at its limit is destroyed or locked as its policy says: denied, with Destroy its slot is revoked and its token burned, with Lockout its state governs with status locked and mask and tokens as they were; at every cut what governs governed before or has the status the policy names; without faults it is enforced exactly while the numbers last |
| Vault.Platform.Recover | src/shared/security/vault.c:41-54 | Success means the governing state is live, unmarked and below its limit; a denial means it is locked or destroyed as its policy says; at every cut what governs governed before or is what its limit makes of it; without faults the answer is the one the state deserves |
| Vault.AdvancesOn | src/shared/security/vault.c:27-54 | What the steps of an attempt make of the governing state composes: only its count changes until an active vault at its limit is locked or condemned |
| Vault.Platform.SelectHeader | src/shared/security/vault.c:69-80 | A copy whose hash is anchored, that parses on this card and matches the state in generation, slot, device, volume and policy; without faults it is found where there is one |
| Vault.Platform.SaveHeader | src/shared/security/vault.c:92-97 | Success makes the copy certain; failure makes no other sector less certain and, when no sync came back, leaves the card as after that one unsynced write |
| Vault.Platform.ReplaceHeader | src/shared/security/vault.c:225-231 | Only a failed first save can endanger the anchored header, and then it survives if and only if the selected copy was synced after it was last saved; the card is as after that one write; without faults both copies and the anchor are replaced |
| Vault.ChangeSafeExactlyWhenSaved | src/shared/security/vault.c:206-227 | At any cut of a change's first save the anchored header survives if and only if the selected copy was synced after it was last saved |
| Vault.RepairThenChangeLosesHeader | src/shared/security/vault.c:98-102 | A repair whose sync fails, then a change whose sync fails, each leaving the card the contracts of RepairHeaderCopy and ReplaceHeader describe, then a power loss: no copy of the anchored header is left |
| Vault.SurvivesExactlyWhenSure | src/shared/security/vault.c:69-80 | A header survives every power loss if and only if one slot surely carries it |
| Vault.Platform.Create | src/shared/security/vault.c:117-148 | Both copies are durable before the state becomes active, and the secret opens the new header to the key given; only an empty vault gets a new header, at every cut; without faults an empty vault is created from whatever a header can be made of |
| Vault.Session.Unlock | src/shared/security/vault.c:149-191 | A session holds the key the secret opens, header safety is kept through repair, and a stopped vault evaluates nothing; without faults the anchored header's own secret is accepted below the limit and no other is |
| Vault.Session.Reverify | src/shared/security/vault.c:195-205 | Success means the candidate opens the header that is anchored to the very key of the open session, for the same volume and credential; the anchor stays, and the session is undisturbed then and closed otherwise; without faults the secret that carries the session's key is confirmed |
| Vault.Session.ChangeCredential | src/shared/security/vault.c:206-234 | Whatever the result, a live state afterwards names the header that was anchored before, or a new one which the new secret opens to the same key as the old secret opens the header that was anchored; a failure in the first save leaves a copy of that if and only if the selected one had been synced; header safety is kept when the copies that read as anchored are saved; without faults the right secret is replaced by any a header can be made with |
| Vault.CreatedKey | src/shared/security/vault.c:117-148 | A vault that was created keeps the key it was given: its anchored header carries that one and no other |
| Vault.ChangedKey | src/shared/security/vault.c:206-234 | A change of the credential, cut anywhere, leaves only headers that carry the same master key |
| Vault.EvaluationsBounded | src/shared/security/vault.c:158-175 | Evaluations stay within the attempts of every live governing state and those within its policy |
| UsbStorage.HostWrite | src/pico/device/usb_storage.c:90-163 | Under every interleaving with the worker, interrupts, locks and unlocks, a write reported complete is on the medium, all of it, under one session generation; complete or not, no byte outside its range has changed but by a batch of an earlier command still under way; when nobody else acts it is refused exactly if the mode or the range forbids it |
| UsbStorage.HostRead | src/pico/device/usb_storage.c:90-163 | A read reported complete gave the medium's bytes of the validated range in order, under one session generation; complete or not, nothing but an earlier batch still under way changes the medium; when nobody else acts it is refused exactly if the range lies outside the volume |
| UsbStorage.Storage.Transfer | src/pico/device/usb_storage.c:110-163 | Nothing is delivered or confirmed under a generation other than the command's, batches are contiguous and in order, a write is confirmed only with all of it stored, a read gives the medium's bytes as far as its batch was fetched and a refused one zeros, and no byte outside the batch under way changes; when nothing stands in its way the next part is done or its batch is under way |
| UsbStorage.Storage.Begin | src/pico/device/usb_storage.c:90-101 | A command is accepted only for a range within the volume, in the published session and a writable mode for writes; nothing but an earlier batch still under way reaches the medium; when nobody else acts the answer is the one the range and the mode deserve, up to the last block |
| UsbStorage.Storage.Check | src/pico/device/usb_storage.c:110-135 | A misplaced or ill-sized call is refused, and when nothing stands in its way the next part of the command is at most put off |
| UsbStorage.Storage.VerdictMeans | src/pico/device/usb_storage.c:127-135 | A batch that came back can be used exactly if it was done in the command's session with the rights it needs, and otherwise its own reason is given |
| UsbStorage.Storage.Harvest | src/pico/device/usb_storage.c:38-45 | A batch that was under way is still under way or has come back, and only what was written is counted |
| UsbStorage.Storage.ClearPipeline | src/pico/device/usb_storage.c:25-33 | The buffer is wiped only after the worker has let go of it, and no request is left behind |
| UsbStorage.Storage.AsyncSubmit | src/pico/device/usb_storage_bridge.c:61-76 | A batch is queued only in the published generation with none outstanding, and always when nobody else uses the queue |
| UsbStorage.Storage.AsyncTake | src/pico/device/usb_storage_bridge.c:49-60 | Takes the response of the batch under way, as a refusal if its session is gone |
| UsbStorage.Storage.Poll | src/pico/device/usb_storage_bridge.c:87-101 | When it is not busy, after a bus event the vault is locked and the command abandoned, and otherwise the command goes on |
| UsbStorage.Worker.VaultIo | src/pico/device/usb_vault_io.h:7-19 | A batch is done only when unlocked, in mode and of the current generation, and then exactly its range changes or is read; a failed write changes nothing outside its range; the result is the one the request deserves unless the card fails |
| UsbStorage.Worker.Execute | src/pico/device/commands.c:302-335 | An announced lock or a bus event locks before the batch is looked at, a card failure after it; the response says what has become of the session |
| Hid.Exchange | src/shared/fido/hid.c:40-141 | Frames produced by one transport and fed to another deliver any message of up to 4096 bytes |
| Hid.Transport.Receive | src/shared/fido/hid.c:40-115 | While a message is processed its buffer and channel are immutable, channels are never reclaimed under a transaction, and every other frame continues, starts or refuses a message as section 11.2.4 of CTAP 2.1 demands; an INIT is answered by 17 bytes: its own nonce, the channel granted in big-endian, version 2 and the capabilities |
| Hid.Transport.Tick | src/shared/fido/hid.c:116-121 | A message times out after three seconds, across the wrap of the clock, and nothing else changes |
| Hid.Transport.Peek | src/shared/fido/hid.c:122-133 | The next frame is the initial or continuation frame of the message being sent |
| Hid.Transport.Sent | src/shared/fido/hid.c:134-141 | Sending advances by the frame's payload and ends exactly with the message |
| Hid.Transport.Finish | src/shared/fido/hid.c:144-158 | A cancelled request answers so, a resynchronised one answers the nonce of its last INIT and its channel, and an oversized answer becomes an error; nothing of the message is left in the buffer |
| Hid.Transport.Assign | src/shared/fido/hid.c:65-82 | The n-th channel handed out is n modulo 2^32; it can be used if and only if that is neither 0 nor the broadcast channel |
| Hid.AssignMany | src/shared/fido/hid.c:70-77 | Any number of assignments are distinct if and only if there are at most 2^32 of them; the next repeats the first |
| Hid.NumbersRepeat | src/shared/fido/hid.c:70-77 | Two assignments give the same number if and only if a multiple of 2^32 lies between them |
| Hid.LastFourKnown | src/shared/fido/hid.c:23-27 | The known channels are exactly the last four handed out |
| SessionTimeout.Session.Poll | src/pico/device/session_timeout.c:41-56 | Locks exactly when this session's deadline has passed, whatever activity is pending; otherwise the deadline never moves earlier and moves only for an event published with this generation and not taken before, and for such an event it does |
| SessionTimeout.Session.Activity | src/pico/device/session_timeout.c:58-63 | Locks exactly when the deadline has passed and otherwise runs on for at least a full period |
| SessionTimeout.Mailbox.Take | src/pico/device/session_timeout.c:32-39 | Under every interleaving below counter wrap the event taken carries the generation published with its sequence; a complete event not yet taken is taken unless another one comes in between |
| SessionTimeout.Timer.Start | src/shared/security/session_timer.c:3-11 | The timer runs for exactly so many thousand milliseconds, or to the end of the clock |
| SessionTimeout.Timer.Touch | src/shared/security/session_timer.c:22-29 | A running timer runs on for as long as before or for a full period from now, whichever ends later; a stopped or passed one does not move |
| SessionTimeout.Timer.RemainingIsCeiling | src/shared/security/session_timer.c:31-37 | The seconds shown are the ceiling of the time left, clamped to the timeout, and zero exactly when not running |
| Xts.Doubled | src/shared/crypto/cipher.c:43-49 | The byte-carry loop multiplies by alpha in GF(2^128), section 5.2 of IEEE 1619-2007 |
| Xts.TweakIsPower | src/shared/crypto/cipher.c:31-56 | Block j is whitened by the encrypted unit number times the j-th power of alpha; by UnitIsNumber the unit is the sector number |
| Xts.UnitIsNumber | src/shared/crypto/cipher.c:36 | The unit is the one block whose first eight bytes are the little-endian sector number and whose others are zero |
| Xts.SectorsDiffer | src/shared/crypto/cipher.c:36 | So no two sectors have the same unit |
| Xts.CryptIsXts | src/shared/crypto/cipher.c:31-56 | Each block comes out as mask, cipher, mask with the tweak of its sector and position, as section 5.3 of IEEE 1619-2007 has it |
| Xts.XtsIsOne | src/shared/crypto/cipher.c:31-56 | That leaves one result for a sector |
| Xts.Crypt | src/shared/crypto/cipher.c:31-56 | The loop masks, enciphers and masks each block with its sector's tweak, in place or into a disjoint range, and touches nothing else; it refuses exactly ranges that overlap in part |
| Xts.SectorRoundTrip | src/shared/crypto/cipher.c:31-56 | Decrypting a sector inverts encrypting it, and the reverse |
| Xts.StackRoundTrip | src/shared/crypto/pipeline.c:26-36 | So it does through any stack of layers |
| Xts.Run | src/shared/crypto/pipeline.c:26-36 | Applies the layers in order to encrypt and in reverse to decrypt, each as XTS of the sector, for all stacks the source accepts |
| Xts.CheckKeys | src/shared/crypto/pipeline.c:5-25 | Accepts exactly stacks of known algorithms with distinct key halves in which no two layers share an effective key |
| Envelope.Open | src/shared/security/envelope.c:107-121 | Opens to a key if the header authentically carries it for this binding and secret, and to no other |
| Envelope.Seal | src/shared/security/envelope.c:86-106 | The header carries exactly this key, split into shares whose XOR it is, all but the last of them the random ones, for any layer count; valid inputs always seal |
| Envelope.CheckSecret | src/shared/security/envelope.c:10-19 | Accepts exactly the secrets a profile can hold |
| Envelope.OnlyItsSecretOpens | src/shared/security/envelope.c:54-121 | A header opens for one binding and one secret only |
| EnvelopeFormat.Parse | src/shared/security/envelope.c:32-44 | Accepts exactly the encodings of valid headers, around any salt, shares and tag, each as the configuration it encodes |
| EnvelopeFormat.Encode | src/shared/security/envelope.c:20-31 | Stores the canonical public fields exactly for valid configurations |
| EnvelopeFormat.DecodeOfEncode | src/shared/security/envelope.c:20-44 | An encoding parses as one configuration only, its own with version 0 written as 1, and its free fields read back |
| EnvelopeFormat.EncodingIsInjective | src/shared/security/envelope.c:20-44 | Equal bytes mean equal headers |
| VolumeFormat.MaxBlocks | src/shared/storage/volume_format.c:48-57 | The binary search finds the largest volume that fits with its tags and bitmap: no valid descriptor describes a larger one |
| VolumeFormat.FootprintMonotone | src/shared/storage/volume_format.c:48-57 | A larger volume never needs less room |
| VolumeFormat.Decode | src/shared/storage/volume_format.c:34-46 | Accepts exactly the canonical encodings of valid descriptors |
| VolumeFormat.Encode | src/shared/storage/volume_format.c:18-33 | Writes the canonical bytes of valid descriptors and zeros for all others |
| VolumeFormat.ParseOfEncoding | src/shared/storage/volume_format.c:18-46 | Decoding an encoding gives the descriptor back, version 0 as 1 |
| VolumeFormat.EncodingRegions | src/shared/storage/volume_format.c:18-33 | The offsets and sizes in an encoding describe a bitmap, tags and data that follow one another within the card, each just large enough for what it holds |
| VolumeFormat.EncodingConstants | src/shared/storage/volume_format.c:18-33 | The fields all descriptors share read back |
| Policy.Decode | src/shared/security/policy.c:27-38 | Accepts exactly the canonical encodings of valid policies |
| Policy.EncodingReadsBack | src/shared/security/policy.c:4-38 | Every field of an encoded policy reads back |
| Policy.EncodingConstants | src/shared/security/policy.c:4-26 | So do its version, length and reserved bytes, and the action is 1, 2 or 5 |

## Findings

Where the code does less than its design asks, the code is modelled as it is, a lemma or a method
shows a run that fails, and a contract says exactly when it does not.

| property | what fails | exactly when it holds |
|---|---|---|
| A credential change always leaves a header copy (vault.c:206-231) | `Vault.RepairThenChangeLosesHeader`: a repair accepted but not synced is selected as if durable, and the change overwrites the other copy first | `Vault.ChangeSafeExactlyWhenSaved`: the selected copy was synced after it was last saved. The session's repair flag does not tell: a later unlock clears it when it reads the doubtful copy. `Vault.Lifetime` carries header safety for a caller that does not change the credential while its last save had failed |
| A cut sector write reads old, new or as an error (auth_store.c:153-169) | `AuthStore.TwoCutsRevive`: two cut writes of an unset address bring back the first of them | `AuthStore.CutCleanExactlyWhenNoneExposed`; `AuthStore.NoneExposed` gives the check a caller can make; `AuthStore.ReturnsExactly` and `AuthStore.WriteRun` say exactly what may come back over any run |
| A failed journal commit can be followed by an open (store.c:306-317, 412-433) | `BlockDevice.CommitThenOpen`, `BlockDevice.RetireThenWrite`: an open goes by a control record that power loss may still take away, and writes over what the record before it needs | In both: the record had been synced; in the first also as long as what is home is harmless, which a changed data sector never is. `FidoLifetime.Lifetime` reopens freely otherwise |
| A failed snapshot commit can be followed by an open (store.c:162-202, 245-257) | `Snapshot.CommitThenOpen`: the next commit invalidates the only durable manifest | The manifest had been synced. `Snapshot.Lifetime` reopens freely otherwise |
| A commit that wrote anything succeeds while the card does (store.c:306-308, 426-433) | `BlockDevice.LastCommit`: with one number left the commit announces the log, cannot retire it and fails, and by `BlockDevice.NeverOpens` what it announced can never be read again | `BlockDevice.Device.Commit`: the log is empty or two numbers remain. At the last number every write is refused and a commit of nothing succeeds |
| A state that may follow the anchored one is committed while the media work (vault.c:21-26) | `Vault.Platform.Commit` at the last number: refused, nothing changes; by `Vault.Platform.Charge` a vault with a limit then evaluates nothing any more | `Vault.Platform.Commit`: the number is below its maximum. `Vault.Platform.Limit`: locking takes one number and destroying two, though the slot is revoked and burned with the first |
| Channel numbers are unique and can be used (hid.c:65-82) | `Hid.AssignMany`: assignment 2^32 + 1 repeats the first; `Hid.Transport.Assign`: assignment 2^32 - 1 gives the broadcast channel and assignment 2^32 gives 0, neither of which is known | `Hid.AssignMany`: at most 2^32 are handed out; `Hid.Transport.Assign`: its number is neither |

## Left out

- The 512-byte encodings of log records, log entries, control records and manifests: sectors and pages are the terms they authenticate; the byte level is modelled for the policy, the descriptor and the header.
- Key derivation (HKDF, PBKDF2), HMAC, SHA-256 and the ciphers themselves: ideal, as above; failures of the crypto library are not modelled.
- File-system traffic through the vault's own read and write calls: the USB worker reads and writes an abstract medium; encryption over the authenticated store is proved for the FIDO disk.
- The FIDO engine, CBOR and the USB stack: only the calls they make.
- Commands, the user interface, the FIDO adapter and its busy state: a submission may be refused at any time for reasons of their own.
- Timing statistics, format progress callbacks and zeroization as memory erasure: a lock leaves no session, not wiped bytes.
- Readers of the older store go through a handle of their own on the same card; its caches are therefore empty at first.
- FidoLifetime.HandleReopen: a careful caller is refused while a control record is doubtful; the source carries the opening out, and what that risks is in the third finding.
- FidoLifetime.HandleInitialise: likewise.
- AuthStore.WriteRun: one opening of the store; after a failed bitmap write a power loss, not a reopening, starts the next run.
- Vault.Platform.FormatVolume: what formatting writes behind the headers is arbitrary here and specified in AuthStore and FidoStore.
- SessionTimeout.Mailbox.Take: says nothing about events once the counter has wrapped between two steps, where the source cannot tell either.
