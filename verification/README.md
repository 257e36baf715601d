# Personal store, verified

A Dafny model of the parts of the Disk repository where a mistake loses or duplicates
somebody's data, with proofs about every run of them:

- the native personal store: four SQLite tables behind `SqliteBackend`, driven by `Parent`
  under the native authority, with queries that fail, commits that may or may not have
  happened, and processes that stop and reopen between any two transactions;
- the owner-journal directory with its crash-safe append, and the page-file layer below it;
- the vector clock, the conflict fork writer, the folder archive and the delta plan.

How the store is modelled. JSON texts are the values they encode, SHA-256 and the UTF-8 test
are functions the model only applies. `Inventory` gives the tables, the statements and the
four transactions as functions on values. `Protocol` defines a run as the sequence of
transactions that took effect, with restarts, and beside it a small machine that each
resource goes through: untouched, reserved, written, cancelled, erased (or foreign, when its
capture identifier belongs to another descriptor). The machine reads events only, never
tables. `Refinement` proves that after every run the tables hold exactly what the machine says,
and therefore that an observation reports the phase. `Safety` and `Cleanup` prove what follows
over whole runs. `Backend` is the class with its faults; its contracts tie every call to the
log. Faults are inputs, here as in the other modules: a function says which queries fail, so
that the contracts can also say that nothing fails by itself. `Parent` proves the order of port calls for every behaviour of the ports by following
each trace with a monitor that does not know the code. `Service` puts all of it together: its
ports append each call and answer to a ghost trace, and that trace is proved to be the parent's.
`Expected` says, from the phase before a call, what the service answers when nothing fails.

The code and its documentation disagree in one place, and the model follows the code:
`apply_conflict` is documented to fall back to a fork when writing the merge fails
(crates/disk-client/src/conflict_writer.rs:87-90); the code returns the error
(crates/disk-client/src/conflict_writer.rs:102-112). It is the first of the promises below.

A clean-up reads its two guards and then runs its transaction
(crates/disk-personal/src/parent_backend.rs:439-476); the model takes them as one step. That
rests on the writer lock that the connection holds for its whole life
(crates/disk-personal/src/parent_sqlite.rs:137) and on the backend's single-threaded cells:
with another connection between the guard and the transaction, two clean-ups under different
leases could journal two rows, and an observation would find the capture corrupt. The two
transactions of a stage are separate steps, with anything in between.

Seven promises hold only under a condition. Each is an if-and-only-if, with inputs that fail:

- `ForkWriter.Vault.ApplyConflict`: a clean merge that fails without a fault fails only where the
  fork could not be written either, exactly unless the live path is a folder and the fork could
  be written (`MergeWithoutFallback`); after a fault there is never a fork;
- `VectorClock.StrongClockCondition`: no advance on a counter at the 64-bit limit
  (`LimitBreaksTheClock`);
- `Archive.RoundTripExactly`: no backslash in a kept name and no digest shared by different
  contents (`BackslashMovesTheFile`, `CollisionMixesFiles`);
- `Directory.PartialIsForeverIff`: a left-over pending entry blocks for good exactly when the
  power failed after its record was begun (`PartialCanBeLost`);
- `Directory.RecordIsForeverIff`: a record, as one that a retry answers `Existing` for, stays for
  good exactly when a directory sync or a power loss came after its rename (`RecordCanBeLost`);
- `Delta.RollingChecksum.Roll`: the 64-bit sum fits, as it always does on windows of up to
  281539415969069 bytes and never does more than two bytes beyond (`OverflowsBeyond`);
- `Delta.RebuildsExactly`: no block of the client's file is replaced by different bytes
  (`CollisionKeepsTheBase`). The direction from success to the condition is for server files
  without a short last block among the blocks taken early, and `WrongBlocksCanAddUp` shows that
  this side condition cannot be dropped.

Verify with `dafny verify dfyconfig.toml`.

## Model

| member | source | states |
|---|---|---|
| `Refinement.RunKeeps` | crates/disk-personal/src/parent_backend.rs:214-483 | one invariant over all four tables holds after every run: each resource's rows are those of its phase, leases, receipts and sequences are unique, the journal is within 128 rows, calls in flight are reserved |
| `Refinement.ObservationIsThePhase` | crates/disk-personal/src/parent_backend.rs:214-310 | after every run the join of the four tables answers exactly what the per-resource machine says, and never `Corrupt` |
| `Refinement.ObservationTells` | crates/disk-personal/src/parent_backend.rs:214-310 | each answer of an observation names one phase, with the outcome it reports |
| `Refinement.StoredIsDeclared` | crates/disk-personal/src/parent_backend.rs:326-400 | after every run the bytes of a written part have the size and the digest of its receipt and are text, its outcome is about that receipt of that capture, and the table holds those bytes |
| `Refinement.ReadIsTheCommit` | crates/disk-personal/src/parent_backend.rs:372-400 | a read succeeds if and only if the part is written under this original effect, and then returns the bytes of its one commit |
| `Safety.RunLeads` | crates/disk-personal/src/parent_backend.rs:326-483 | phases never turn back in any continuation; the committing call and the cancellation are fixed once set |
| `Safety.OneWritePerResource` | crates/disk-personal/src/parent_backend.rs:345-371 | at most one prepare and one commit per resource in any run; a commit belongs to the call that prepared, with no restart between the two |
| `Safety.PreparedForever` | crates/disk-personal/src/parent_backend.rs:336-371 | a reserved resource whose call is gone stays reserved: never written, prepared or cancelled again |
| `Safety.RowsOnlyGrow` | crates/disk-personal/src/parent_backend.rs:311-483 | attempts go absent, prepared, committed; a cancellation is set once; bytes only disappear and only under a cancelled capture; journal rows are never changed or removed |
| `Safety.JournalIsExact` | crates/disk-personal/src/parent_backend.rs:311-325 | at most 128 rows with unique receipts, leases and sequences, and for each resource exactly the rows of its phase, so at most one |
| `Safety.FullJournalIsFinal` | crates/disk-personal/src/parent_backend.rs:311-325 | once the journal has 128 rows no continuation commits or erases anything; journal and objects stay as they are |
| `Cleanup.CancelledHasNoPrepared` | crates/disk-personal/src/parent_backend.rs:414-425 | a cancelled capture has no prepared part, however stage and cancellation interleave |
| `Cleanup.CommitStopsOnlyAtTheJournal` | crates/disk-personal/src/parent_backend.rs:354-365 | in a reachable state the second stage transaction passes its capture check and finds its row; it is stopped exactly by a full journal or a used receipt, lease or sequence |
| `Cleanup.EraseStopsOnlyAtTheJournal` | crates/disk-personal/src/parent_backend.rs:459-475 | the left-over-body check of a clean-up cannot fail; only the journal can stop it |
| `Cleanup.TombstoneAcceptedExactly` | crates/disk-personal/src/parent_backend.rs:414-425 | a cancellation is accepted if and only if no part is reserved and the capture is untouched or cancelled by the same value |
| `Cleanup.CleanupResumes` | crates/disk-personal/src/parent_backend.rs:401-483 | from every point after the cancellation is durable, cancelling again changes nothing; erasing is possible exactly while the capture is not erased and the journal admits its row |
| `Cleanup.CancelledTogether` | crates/disk-personal/src/parent_backend.rs:401-483 | every part is cancelled or erased exactly when its capture is, under the same value |
| `Cleanup.CleanedForGood` | crates/disk-personal/src/parent_backend.rs:401-483 | after a clean-up no continuation of the run has a body of the capture, and attempts, receipts, outcomes and the cancellation stay as they were |
| `Backend.SqliteBackend.constructor` | crates/disk-personal/src/parent_backend.rs:93-138 | a blank database is the empty run |
| `Backend.SqliteBackend.Reopen` | crates/disk-personal/src/parent_backend.rs:93-138 | a restart clears the poison, drops calls in flight and changes no table |
| `Backend.SqliteBackend.Query` | crates/disk-personal/src/parent_backend.rs:142-156 | an uncertain backend refuses; a query fails exactly when its weather is foul, and then makes it uncertain |
| `Backend.SqliteBackend.Settle` | crates/disk-personal/src/parent_backend.rs:157-199 | an aborted body leaves the tables as they were; a commit succeeds, or fails having happened or not, as its weather says, and a failure leaves the backend uncertain |
| `Backend.SqliteBackend.PrepareBody` | crates/disk-personal/src/parent_backend.rs:349-353 | the statements, any of which may fail, come to the first stage transaction or to its refusal |
| `Backend.SqliteBackend.CommitBody` | crates/disk-personal/src/parent_backend.rs:355-360 | the same for bytes, journal row and COMMITTED together |
| `Backend.SqliteBackend.TombstoneBody` | crates/disk-personal/src/parent_backend.rs:414-425 | the loop over the parts refuses exactly when one is prepared |
| `Backend.SqliteBackend.EraseBody` | crates/disk-personal/src/parent_backend.rs:456-476 | the loop over the parts erases the bodies of the capture's parts and nothing else |
| `Backend.SqliteBackend.ObserveContext` | crates/disk-personal/src/parent_backend.rs:214-310 | the observation of the tables, or a refusal; refuses while uncertain |
| `Backend.SqliteBackend.ReadContext` | crates/disk-personal/src/parent_backend.rs:372-400 | bytes returned are those of the resource's one commit |
| `Backend.SqliteBackend.StageContext` | crates/disk-personal/src/parent_backend.rs:326-371 | the log grows by both transactions, by the first, or not at all, and not at all once the resource has left its first phase; without a fault the answer is a function of the phase, and in fair weather with fresh keys there is none; backpressure leaves objects and journal unchanged; uncertain backends and bad arguments change nothing |
| `Backend.SqliteBackend.StageFresh` | crates/disk-personal/src/parent_backend.rs:345-371 | the two transactions with their faults: both events, the first, or none; without a fault success or backpressure, by the journal alone |
| `Backend.SqliteBackend.TombstoneContext` | crates/disk-personal/src/parent_backend.rs:401-426 | success is a durable cancellation; without a fault the answer is a function of the phases, and in fair weather there is none; bad arguments change nothing |
| `Backend.SqliteBackend.CleanupContext` | crates/disk-personal/src/parent_backend.rs:427-483 | success means the capture is erased under the returned outcome; without a fault the answer is a function of the phase, and in fair weather with fresh keys there is none; bad arguments change nothing |
| `Parent.WriteIsDisciplined` | crates/disk-personal/src/parent_adapter.rs:190-262 | for every behaviour of the ports: effects inside both fences, bytes asked for only after `Unseen` or `Durable`, at most one stage and only after `Unseen` with checked bytes, registration only after receipt check and readback, success only with the registered outcome |
| `Parent.CleanupIsDisciplined` | crates/disk-personal/src/parent_adapter.rs:303-336 | cancellation authenticated before the inventory is read, tombstone before erase, nothing in doubt cancelled, success only with the certified and registered outcome |
| `Parent.VerifyIsDisciplined` | crates/disk-personal/src/parent_adapter.rs:264-290 | a verification stages, erases and registers nothing and succeeds only with an outcome it read back |
| `Parent.StatusIsDisciplined` | crates/disk-personal/src/parent_adapter.rs:292-302 | a status call is one observation inside both fences |
| `Parent.WriteSucceedsExactly` | crates/disk-personal/src/parent_adapter.rs:221-262 | exactly which answers of the ports make a write succeed, with which outcome, and how an observation refuses it |
| `Parent.CleanupSucceedsExactly` | crates/disk-personal/src/parent_adapter.rs:303-336 | the same for a clean-up |
| `Parent.VerifySucceedsExactly` | crates/disk-personal/src/parent_adapter.rs:264-290 | the same for a verification |
| `Service.FencesAttest` | crates/disk-personal/src/parent_authority.rs:84-128 | both fences are entered exactly when deployment, descriptor, resource and operation are the ones the control plane attests, and then do what the control plane does |
| `Service.OfferedIsStageable` | crates/disk-personal/src/parent_backend.rs:332-340 | the argument checks of a stage accept exactly a stored outcome of this part under its original effect with the declared bytes |
| `Service.AuthorityRefusesOthers` | crates/disk-personal/src/parent_authority.rs:129-199 | an effect of another request, or of another operation, is refused by every check of the authority |
| `Service.Ports.ObserveStorage` | crates/disk-personal/src/parent_native.rs:395-413 | the answer is the phase of the resource, whichever phase it is, read from a table of phases; never `Corrupt`; the call and its answer are added to the trace |
| `Service.Ports.StageStorage` | crates/disk-personal/src/parent_native.rs:417-426 | a commit reported is the written phase with that outcome and those bytes; without a fault the answer is given by the phase and the journal before the call |
| `Service.Ports.ReadbackStorage` | crates/disk-personal/src/parent_native.rs:427-433 | success means that the receipt is the selected one, that the part was committed under the effect's original, and that the committed bytes have the declared size and digest and are text; without a fault it succeeds on exactly such a part |
| `Service.Ports.TombstoneStorage` | crates/disk-personal/src/parent_native.rs:434-436 | success is exactly one cancellation added to the run; without a fault the answer is given by the phases before the call |
| `Service.Ports.FinishCleanupStorage` | crates/disk-personal/src/parent_native.rs:437-448 | an outcome reported is the one the capture was erased under; without a fault the answer is given by the phase before the call |
| `Service.Ports.Confirm` | crates/disk-personal/src/parent_adapter.rs:204-219 | the calls made are exactly receipt check, readback and registration, each only after the one before succeeded; success is vouched for and read back, and a durable outcome the control plane vouches for is confirmed unless a query fails |
| `Service.Ports.Hydrate` | crates/disk-personal/src/parent_adapter.rs:235-239 | the body is asked for once and accepted exactly when it is short enough and checks out |
| `Service.Ports.StageInside` | crates/disk-personal/src/parent_adapter.rs:248-253 | one stage call, confirmed only when it reports a commit |
| `Service.Ports.Proceed` | crates/disk-personal/src/parent_adapter.rs:234-254 | bytes first, then the confirmation of a durable part or the one stage of a fresh one |
| `Service.Ports.EraseInside` | crates/disk-personal/src/parent_adapter.rs:321-332 | the tombstone is asked for first, the erasing only after it succeeded, then certification; without a fault the result is given by the phases before the call |
| `Service.Ports.Certify` | crates/disk-personal/src/parent_adapter.rs:328-333 | the calls made are exactly certification and registration, and success means the control plane's clean-up binding matches |
| `Service.Ports.WriteOrReconcile` | crates/disk-personal/src/parent_adapter.rs:221-262 | over the real backend the port calls made, with their answers, are those of the parent's call, hence disciplined; success returns the outcome of the resource's one durable write, whose bytes are the declared ones, vouched for and registered by the control plane, and what was staged is the caller's body; without an attested binding nothing changes; without a fault the result is given by the phase before the call, so a fresh write with room in the journal returns the proposal |
| `Service.Ports.CleanUp` | crates/disk-personal/src/parent_adapter.rs:303-336 | the port calls made are those of the parent's call, hence disciplined; success returns the outcome the capture was erased under, certified and registered, and leaves no body; without an attested binding nothing changes; without a fault the result is given by the phases before the call |
| `Service.Ports.VerifyExactReadback` | crates/disk-personal/src/parent_adapter.rs:264-290 | the port calls made are those of the parent's call: nothing staged, erased or registered, both fences closed again; success returns the outcome of the durable write with its declared bytes, matched to the control plane's binding and read back; without a fault the result is given by the phase; no table changes |
| `Service.Ports.StatusOf` | crates/disk-personal/src/parent_adapter.rs:292-301 | the port calls made are those of the parent's call, both fences closed again, and without a fault the answer is the phase of the resource |
| `Service.WrittenOnce` | crates/disk-personal/src/parent_backend.rs:311-371 | a resource found written at two points of a run was written once, and the journal holds exactly the row of that write, field by field |
| `Service.ErasedOnce` | crates/disk-personal/src/parent_backend.rs:427-483 | repeated clean-ups return one outcome, that of the capture's one journal row, field by field |
| `Service.Drive` | crates/disk-personal/src/parent_backend.rs:142-199 | any sequence of calls and restarts only extends the run; an uncertain backend changes nothing until it is reopened |
| `Service.WriteTwice` | crates/disk-personal/src/parent_adapter.rs:204-262 | two successful writes of one request return the same outcome whatever ran in between, and it is the resource's unique journal row |
| `Inventory.FromControlReadback` | crates/disk-personal/src/parent_backend.rs:44-62 | a context exists exactly for a proposal of the original effect, and matches exactly the request it was made for |
| `Inventory.EvidenceIsComplete` | crates/disk-personal/src/parent_backend.rs:214-310 | on any tables, reachable or not, nothing is called durable, prepared, fresh or cleaned without the evidence of all four |
| `Inventory.ContradictionIsReported` | crates/disk-personal/src/parent_backend.rs:264-306 | on any tables contradicting rows of an open capture are reported as corrupt |
| `Inventory.CancelledContradictionIsReported` | crates/disk-personal/src/parent_backend.rs:221-249 | the same of a cancelled capture |
| `Inventory.ReadIsChecked` | crates/disk-personal/src/parent_backend.rs:372-400 | on any tables a read returns only stored bytes of the declared size and digest |
| `Inventory.PrepareExactly` | crates/disk-personal/src/parent_backend.rs:349-353 | on any tables, when the first stage transaction applies and exactly what it changes |
| `Inventory.CommitExactly` | crates/disk-personal/src/parent_backend.rs:355-360 | on any tables, when the second one applies and exactly what it changes |
| `Inventory.TombstoneExactly` | crates/disk-personal/src/parent_backend.rs:414-425 | on any tables, when a cancellation applies and that it sets one column |
| `Inventory.EraseExactly` | crates/disk-personal/src/parent_backend.rs:456-476 | on any tables, when an erasing applies and exactly which bodies it takes |
| `Native.ParseRequest` | crates/disk-personal/src/parent_native.rs:86-107 | accepted exactly for a text of at most 8192 bytes that decodes to an accepted descriptor with the part asked for; the resource identity is the pair |
| `Native.DescriptorAcceptedExactly` | crates/disk-personal/src/capture_binding.rs:77-124 | the accepted descriptors: a note, or a note and an attachment with other identifiers, within their limits, under a fingerprint of everything but the allocated identifiers |
| `Native.ShapesAreExact` | crates/disk-personal/src/capture_binding.rs:58-72 | identifiers are exactly five dash-separated groups of hexadecimal digits, digests exactly 64 of them |
| `Native.BodyAcceptedExactly` | crates/disk-personal/src/capture_binding.rs:235-265 | a body is accepted exactly when it has the declared size and digest and is text |
| `Native.CancellationAcceptedExactly` | crates/disk-personal/src/parent_native.rs:283-324 | the accepted texts, without sorting: at most 4096 bytes that decode to a cancellation of the whole capture whose fields are fixed by the request and whose part list is any arrangement of its parts |
| `Native.ParseCancelled` | crates/disk-personal/src/parent_native.rs:283-324 | an accepted cancellation is of the whole capture, names each of its parts and cancels a later generation |
| `Native.ResourceNamesRequest` | crates/disk-personal/src/parent_native.rs:494-503 | two parsed requests with one resource identity are the same request |
| `Native.VerifyReceiptSet` | crates/disk-personal/src/capture_binding.rs:217-230 | accepted if and only if every receipt text is within 4096 bytes and decodes, the receipts are a bijection with the descriptor's parts, and every body has its receipt's size and digest and is text |
| `Native.CleanedIsAPermutation` | crates/disk-personal/src/parent_native.rs:336-354 | a cleaned outcome is accepted if and only if its objects are a permutation of the capture's object keys and the cancellation fields agree |
| `Native.CleanedNamesEveryObject` | crates/disk-personal/src/parent_native.rs:325-354 | an accepted clean-up names every object of the capture by part, object and revision |
| `Native.ValidatedListsEveryPart` | crates/disk-personal/src/parent_native.rs:291-324 | a validated cancellation lists each part of the capture once, in any order |
| `Native.AcceptedIsDistinct` | crates/disk-personal/src/capture_binding.rs:98-115 | parsing makes object keys and expected receipts distinct |
| `Decimal.CounterTextIsCanonical` | crates/disk-personal/src/parent_native.rs:28-44 | reading undoes writing and each counter has exactly one accepted text |
| `Directory.NamesAreExact` | crates/disk-personal/src/parent_journal.rs:187-192 | file names and directory entries correspond one to one |
| `Directory.RunIsGood` | crates/disk-personal/src/parent_journal.rs:223-277 | every directory reachable with failures and power losses holds whole records only, distinct in lease, receipt and sequence, at most 128 |
| `Directory.RecordsAreDistinct` | crates/disk-personal/src/parent_journal.rs:198-207 | on every reachable directory two records differ in lease, owner receipt and local sequence, each is under its own lease and schema, at most 128 |
| `Directory.PinnedStays` | crates/disk-personal/src/parent_journal.rs:263-276 | what is durable stays, with its bytes, through every later step, failure and power loss |
| `Directory.RecordedSurvives` | crates/disk-personal/src/parent_journal.rs:263-276 | after the directory sync of a record call every later directory holds that record |
| `Directory.PartialBlocks` | crates/disk-personal/src/parent_journal.rs:186-189 | with a pending entry left over nothing but a power loss changes the directory |
| `Directory.PinnedPartialFreezes` | crates/disk-personal/src/parent_journal.rs:186-189 | a durable pending entry freezes the directory for good |
| `Directory.PartialIsForeverIff` | crates/disk-personal/src/parent_journal.rs:186-189 | a pending entry is there in every continuation if and only if the power failed after its record was begun |
| `Directory.PinnedIffPowerFailed` | crates/disk-personal/src/parent_journal.rs:263-276 | a pending entry is durable exactly when a power loss came after the create |
| `Directory.PartialCanBeLost` | crates/disk-personal/src/parent_journal.rs:263-276 | create, stop, power loss: the pending entry can be gone |
| `Directory.RecordIsForeverIff` | crates/disk-personal/src/parent_journal.rs:263-276 | a live record is there in every continuation if and only if a directory sync or a power loss came after its rename |
| `Directory.RecordCanBeLost` | crates/disk-personal/src/parent_journal.rs:263-276 | the directory sync fails, the record is there whole, and a power loss takes it |
| `Journal.ReadEntry` | crates/disk-personal/src/parent_journal.rs:140-209 | an entry is taken exactly when it is a well-formed record of its own lease |
| `Journal.Collect` | crates/disk-personal/src/parent_journal.rs:163-209 | the loop accepts exactly the scannable directories; on an orderly one it fails only as pending or by a read error |
| `Journal.Scan` | crates/disk-personal/src/parent_journal.rs:163-212 | all records of the directory, in strictly increasing sequence |
| `Journal.ListingIsUnique` | crates/disk-personal/src/parent_journal.rs:163-212 | the result does not depend on the order in which the directory is listed |
| `Journal.AtMostOneMatches` | crates/disk-personal/src/parent_inventory.rs:25-32 | at most one scanned record carries an expected original effect, and the filter finds it |
| `Journal.Weigh` | crates/disk-personal/src/parent_journal.rs:243-259 | the comparison loop answers existing, conflict, capacity or free as the directory's contents say, whatever order the records come in |
| `Journal.OwnerJournal.Inspect` | crates/disk-personal/src/parent_journal.rs:215-218 | refuses while a pending entry is there; otherwise fails only by a held lock or a read error |
| `Journal.OwnerJournal.Append` | crates/disk-personal/src/parent_journal.rs:260-277 | success adds exactly the record and makes it durable; a failure loses nothing that was there |
| `Journal.OwnerJournal.Publish` | crates/disk-personal/src/parent_journal.rs:266-276 | sync, rename and directory sync, each of which may fail: the record appears under its final name only when whole |
| `Journal.OwnerJournal.RecordOutcome` | crates/disk-personal/src/parent_journal.rs:223-277 | the answer is the verdict on the directory unless a file operation failed; refusals change nothing; with a pending entry left over it always refuses; what `Existing` observed is durable exactly when it was settled before |
| `PageFile.Assemble` | crates/disk-personal/src/parent_vfs.rs:198-216 | under any pattern of short and interrupted reads the buffer and count are those of one ideal read |
| `PageFile.ReadsBack` | crates/disk-personal/src/parent_vfs.rs:198-229 | reading what was written gives it back; other bytes are unchanged and a gap is zeros |
| `PageFile.RangeIsExact` | crates/disk-personal/src/parent_vfs.rs:186-194 | a range is accepted exactly when it ends within 16 MiB |
| `PageFile.ResizedIs` | crates/disk-personal/src/parent_sqlite.rs:187-192 | a truncated file keeps its beginning, a lengthened one gets zeros |
| `PageFile.Root.ReadAt` | crates/disk-personal/src/parent_sqlite.rs:162-180 | byte by byte the content and then zeros, with the count of bytes left; refuses out of range, over the cap or when poisoned |
| `PageFile.Root.WriteAt` | crates/disk-personal/src/parent_vfs.rs:217-229 | an accepted write is whole and keeps the cap; a broken one leaves a prefix and poisons |
| `PageFile.Root.TruncateTo` | crates/disk-personal/src/parent_sqlite.rs:187-192 | an accepted truncation is exact and keeps the cap; a broken one poisons |
| `PageFile.Root.CreateNew` | crates/disk-personal/src/parent_vfs.rs:162-176 | any failure, an existing name included, poisons |
| `PageFile.Root.SyncAll` | crates/disk-personal/src/parent_sqlite.rs:91-96 | a failed sync poisons |
| `PageFile.Root.Perform` | crates/disk-personal/src/parent_sqlite.rs:25-31 | the poison flag is set exactly by a mutation that broke, and once set refuses everything |
| `PageFile.Root.WithExclusive` | crates/disk-personal/src/parent_vfs.rs:103-125 | after a mutation broke every later operation is refused and changes nothing, and the session fails even if its action swallowed the error |
| `VectorClock.MergeIsLeastUpperBound` | crates/disk-core/src/vector_clock.rs:37-45 | merge is the least upper bound and idempotent |
| `VectorClock.ComparedMeans` | crates/disk-core/src/vector_clock.rs:53-76 | each of the four answers by the counters it stands for |
| `VectorClock.Vector.Advance` | crates/disk-core/src/vector_clock.rs:32-35 | the node's counter goes up by one, saturating |
| `VectorClock.Vector.Merge` | crates/disk-core/src/vector_clock.rs:38-45 | the loop computes the per-key maximum |
| `VectorClock.Vector.Compare` | crates/disk-core/src/vector_clock.rs:53-76 | the loop decides the order of the two clocks on all nodes, each answer stated by what it means |
| `VectorClock.Vector.HappensBefore` | crates/disk-core/src/vector_clock.rs:79-81 | true exactly for a smaller clock |
| `VectorClock.StrongClockCondition` | crates/disk-core/src/vector_clock.rs:32-76 | over every run of advances and merges, all clocks compare as their causal histories do (before exactly for a proper subset, equal for the same, concurrent when neither contains the other) if and only if no advance happened on a saturated counter |
| `VectorClock.LimitBreaksTheClock` | crates/disk-core/src/vector_clock.rs:32-35 | one node advancing past the limit makes two clocks that compare equal although one depends on the other |
| `Calendar.Decompose` | crates/disk-core/src/conflict/fork.rs:112-144 | a real date and time that names exactly the given second; the invalid-month panic is not reached |
| `Calendar.YearsAreGregorian` | crates/disk-core/src/conflict/fork.rs:146-156 | the days before a year in closed form, for all years |
| `Calendar.MonthsAreGregorian` | crates/disk-core/src/conflict/fork.rs:158-171 | the days before each month of a year |
| `Calendar.TextTells` | crates/disk-core/src/conflict/fork.rs:99-108 | the timestamp text determines the time |
| `Calendar.TextReads` | crates/disk-core/src/conflict/fork.rs:99-108 | the text reads as year, month, day, dash, hour, minute, second |
| `ForkWriter.ForkNamesDiffer` | crates/disk-core/src/conflict/fork.rs:42-79 | forks of a file by one node in different seconds have different names |
| `ForkWriter.ExtensionIff` | crates/disk-core/src/conflict/fork.rs:84-96 | a name has an extension exactly when it has a dot after its first character and none at its end |
| `ForkWriter.TagOfDigits` | crates/disk-core/src/conflict/fork.rs:50-57 | of the node's hexadecimal digits the first eight are taken, padded with zeros |
| `ForkWriter.OthersAreDropped` | crates/disk-core/src/conflict/fork.rs:50-57 | other characters of the node do not count |
| `ForkWriter.CleanExactly` | crates/disk-core/src/conflict/merge.rs:62-100 | a merge is clean exactly with a base, everything within 10 MiB, no NUL among the first 1024 bytes, all text, and a merger that found no conflict, and then has the merger's text |
| `ForkWriter.EligibleExactly` | crates/disk-client/src/conflict_writer.rs:51-57 | exactly names with a stem and the extension md or txt, in either case |
| `ForkWriter.ForkIsConfined` | crates/disk-client/src/conflict_writer.rs:229-245 | the traversal check fails on a fork exactly when the folder of the file is unsafe or its name has a NUL |
| `ForkWriter.CandidatesDiffer` | crates/disk-client/src/conflict_writer.rs:208-226 | no two attempts try the same path |
| `ForkWriter.CounterAfterTimestampIff` | crates/disk-client/src/conflict_writer.rs:216-219 | the collision counter follows the timestamp exactly when the file has an extension; otherwise it goes before the conflict mark |
| `ForkWriter.Vault.MakeFolders` | crates/disk-client/src/conflict_writer.rs:147-149 | only folders on the way are added; a fault is an I/O error, and without one it fails exactly when a file is in the way |
| `ForkWriter.Vault.WriteAtomic` | crates/disk-client/src/conflict_writer.rs:186-203 | the whole file under a free name, or nothing |
| `ForkWriter.Vault.WriteFork` | crates/disk-client/src/conflict_writer.rs:132-180 | the fork is at the first free of a hundred candidates, below the vault, with exactly the contents; without a fault it fails exactly for an unsafe path, a file in the way or a hundred taken names, each with its own error |
| `ForkWriter.Vault.ApplyConflict` | crates/disk-client/src/conflict_writer.rs:91-119 | merged only for a text extension and a mergeable input, with the merger's text at the live path and nothing else changed; without a fault always merged then, unless the live path is a folder or a file is in the way; otherwise forked; a failure changes no file, and without a fault its causes are exact; the exact condition of the documented fall-back |
| `ForkWriter.MergeWithoutFallback` | crates/disk-client/src/conflict_writer.rs:87-112 | a clean merge onto a folder: the call fails and no file holds the remote bytes, although the fork could be written |
| `ForkWriter.NothingIsLost` | crates/disk-client/src/conflict_writer.rs:82-85 | after a fork every file is still there with its bytes and the remote bytes are there too |
| `Archive.Slashed` | crates/disk-core/src/archive.rs:39 | backslashes become slashes; the name is unchanged exactly when it has none |
| `Archive.KeptExactly` | crates/disk-core/src/archive.rs:40-42 | kept is everything but the index's own name and what has an archive folder on its path |
| `Archive.Create` | crates/disk-core/src/archive.rs:24-66 | one entry for each kept file, in the order of the path texts, every digest backed by the blob of a kept file, other blobs left alone |
| `Ordering.TextLeMeans` | crates/disk-core/src/archive.rs:56 | the order of texts: a prefix comes first, otherwise the first difference decides |
| `Archive.Restore` | crates/disk-core/src/archive.rs:72-109 | entries in order up to the first unsafe path, damaged blob or obstruction; whatever the archive holds, only paths inside the folder are written, only with contents an entry vouches for by size and digest, and nothing is removed |
| `Archive.RestoresOnlyVetted` | crates/disk-core/src/archive.rs:72-109 | the same of the entries in order, by induction over any index and any blobs |
| `Archive.EscapeIsRefused` | crates/disk-core/src/archive.rs:77-86 | an entry that leads out of the folder stops the restoration before anything is written |
| `Archive.RoundTripExactly` | crates/disk-core/src/archive.rs:24-109 | restoring into an empty folder gives exactly the kept files if and only if no kept name has a backslash and no two kept contents share a digest |
| `Archive.CreateAndRestore` | crates/disk-core/src/archive.rs:24-109 | the same of the two loops, one after the other, for every listing order and prior archive |
| `Archive.BackslashMovesTheFile` | crates/disk-core/src/archive.rs:39 | one file named with a backslash: its archive restores without trouble as another file |
| `Archive.CollisionMixesFiles` | crates/disk-core/src/archive.rs:43-48 | two files with one digest and different contents: the archive restores without trouble with one content in both |
| `Delta.AdlerFull` | crates/disk-core/src/delta/rolling.rs:74-82 | the two running sums are the plain and the weighted sum modulo 65521 |
| `Delta.ChecksumOfAbcd` | crates/disk-core/src/delta/rolling.rs:92-96 | the checksum of `abcd` is 0x03d4018a |
| `Delta.RollingChecksum.constructor` | crates/disk-core/src/delta/rolling.rs:45-55 | the state of the initial window |
| `Delta.RollingChecksum.Roll` | crates/disk-core/src/delta/rolling.rs:59-63 | the state of the window moved by one byte; it fails exactly when the 64-bit sum overflows |
| `Delta.OverflowsBeyond` | crates/disk-core/src/delta/rolling.rs:62 | the sum never overflows on windows of up to 281539415969069 bytes and always does on windows more than two bytes longer |
| `Delta.RollAcross` | crates/disk-core/src/delta/rolling.rs:45-82 | rolling across a file gives the plain checksum of every window, and runs through exactly when no window's sum overflows |
| `Delta.Chunks` | crates/disk-core/src/delta/chunker.rs:34-74 | consecutive 4096-byte blocks with their offset, checksum and hash, the last perhaps shorter |
| `Delta.JoinedBlocks` | crates/disk-core/src/delta/chunker.rs:34-74 | the blocks make up the file |
| `Delta.BuildPlan` | crates/disk-core/src/delta/reconcile.rs:102-127 | one entry for each client chunk, pointing at the last server chunk with its key if there is one |
| `Delta.ApplyPlan` | crates/disk-core/src/delta/reconcile.rs:135-162 | pieces in order up to the first out-of-range hit or empty miss |
| `Delta.SyncFile` | crates/disk-core/src/delta/reconcile.rs:13-21 | both loops one after the other: the plan always applies, rebuilds the file if no chunk is replaced by different bytes, and only then as long as full blocks are taken for full blocks |
| `Delta.RebuildsExactly` | crates/disk-core/src/delta/reconcile.rs:102-162 | for files of any number of blocks the plan applies and gives back the client's file if and only if the last server block with each chunk's key, if there is one, has that chunk's bytes; the "only if" as long as full blocks are taken for full blocks |
| `Delta.FullBlocksAreTaken` | crates/disk-core/src/delta/reconcile.rs:112-120 | the side condition holds when the server's length is a multiple of 4096 or the client's file has one block |
| `Delta.NoCollisionTakesRight` | crates/disk-core/src/delta/reconcile.rs:112-120 | blocks that do not collide are never taken wrongly |
| `Delta.WrongBlocksCanAddUp` | crates/disk-core/src/delta/reconcile.rs:112-120 | two files for which two wrong blocks make up the right file, one of them the short last block |
| `Delta.CollisionKeepsTheBase` | crates/disk-core/src/delta/reconcile.rs:102-162 | two files of three bytes with one checksum: a hash that does not tell them apart leaves the server its own |
| `Delta.OneBlockExactly` | crates/disk-core/src/delta/reconcile.rs:102-162 | the case of one block: rebuilt if and only if the server's file does not collide with it |

## Left out

- A panic inside a transaction body: the drop guard's rollback is not modelled (a body either ends or refuses).
- Schema creation and the exact schema check of `initialize`; a database is blank or one of ours.
- JSON itself: decoding is a function of the text, and stored values stand for their encodings.
- The content-free error diagnostic kept beside the poison bit.
- Authentication: the control plane is the record of what it answers in a call.
- File modes, owners, inodes, link counts and directory identity checks in the journal and page-file layers; lock contention in the page-file layer.
- Files changing while they are read in `Journal::read`; the exclusive lock excludes it.
- The object readback after the journal match in `verify_original_readback`.
- `Calendar.Decompose`: years are unbounded, the source counts them in 32 bits.
- `Delta.RollingChecksum.Roll`: an overflow is a failure of the call; the wrapped value that an unchecked build would keep is not modelled.
- `Delta.SyncFile`: when a full client block is taken from the server's short last block, success does not imply that every block was right; `Delta.WrongBlocksCanAddUp` is such a case. `build_plan` without inline data is not modelled.
- `Delta.Chunks`: reads a whole buffer; short reads of a stream are not modelled.
- `ForkWriter.Vault.WriteFork`: a temporary file whose creation itself reports an existing name, and another process creating the fork between the check and the rename. `..` in a live path is not resolved.
- `Archive.Restore`: entry paths are not normalised, which matters only for names that had a backslash; symbolic links, unreadable names and I/O errors while reading or writing are not modelled, and the archive is outside the source folder.
- The text merge itself: a function that says clean or not; its guards are modelled.
- The reconciler's decision tree, the scanner, the metadata database, the sync loop, CLI, HTTP, GUI and plugin code: branch tables or I/O plumbing.
