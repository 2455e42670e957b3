# A model of a vTPM store, a kexec loader and execute-only ciphers

This project models, in Dafny, the parts of the repository that keep state across failures or across calls:

- **The vTPM manager's store** (`xen/stubdom/vtpmmgr`). Groups of virtual TPMs live in memory and on a disk with two roots. Pages, index trees, groups and roots form a hash tree; changed parts are written to free sectors and the root of the other slot last. `DiskFormat`, `IndexTree`, `DiskLoad`, `Authentic` say what a disk means; `DiskIo`, `DiskWrite`, `GroupWrite`, `Populate`, `Rollback`, `Sync` are the writer; `DiskRead`, `GroupRead` are the loader; `VtpmTable`, `Commands` and `Clients` are what clients do; `LoadLaws`, `Crash`, `Stored`, `Reload`, `StoreTheorems`, `Runs`, `Restart` hold the laws.
- **The kexec loader's frame exchange** (`xen/stubdom/grub/kexec.c`): `Kexec`.
- **Streaming AES-CTR and AES-GCM** around a block routine that may be interrupted (`openssl-provider/src`): `CounterMode`, `XomStream`, `CtrStream`, `GcmStream`.
- **The disk's cipher modes** (`disk_crypto.c`): `DiskCrypto`, `Cmac`.
- **A vTPM's two-slot state file** (`xen/stubdom/vtpm/vtpmblk.c`): `VtpmBlk`.
- **The subpage allocator** (`libxom/libxom.c`): `Subpages`.

Block ciphers, hashes, MACs and GHASH multiplication are function parameters. Sealing and opening a sector is a `Codec`; the only thing assumed of it is `Faithful` (what is sealed opens again) and, where a lemma says so, that no two of the blobs on the disks at hand collide. `PlainCodec` shows that these assumptions can be met together. The hardware TPM is an oracle, `Tpm`. Interruptions of the block routine are a `schedule`. A disk is a map from sectors to blobs, every write of a sync is an entry of a log, and a crash keeps any subset of the entries.

Where the code departs from its evident purpose, the model does what the code does; a flag `fixed` selects the evident purpose instead, and the contracts say exactly when the two agree.

What the proofs found, beyond the laws that hold:

- A load puts all pages of a leaf into one place, so a group comes back only if it has at most one page (`StoreTheorems.RoundTrip`).
- The group writer overruns its arrays with more than 112 groups (`Sync.Store.SyncDisk`).
- The rollback scan reads past its table exactly when an open group other than group 0 lies beyond the last group that signed (`Rollback.ScanExact`, `Rollback.UnmodifiedFlagsNone`).
- Deleting a vTPM does not mark its group, so the deletion reaches the disk only when something else marks the group, and until then a reload brings the vTPM back (`Commands.VtpmDel`, `Commands.DeletionNotDurable`, and the equivalence in `Sync.Store.SyncDisk`).
- A client that was refused a vTPM keeps it cached, and its next command is served without a check. A connection serves only what was granted if and only if the attempt that first finds the vTPM is granted, or the next one is, or there is none (`Clients.AccessExact`, `Clients.RefusedThenServed`).
- A saved hash and key comes back as it was saved exactly if it has 52 bytes, or 64 and not only zeros in the last 12 (`Clients.SentBack`).
- A page allocated after a frame was exchanged behind the chain's back loses a frame (`Kexec.AllocateAfterExchangeLosesFrame`); a step keeps the frames exactly when the walk ended at the frame's slot (`Kexec.DisplaceKeepsFrames`).
- The state file's reader gives up when slot 0 has an unreadable length, even if slot 1 is good (`VtpmBlk.CommittedReads`). A failed write turns the next one against the committed slot; tearing a write is harmless if and only if it goes to the other slot (`VtpmBlk.FailureExposes`).
- An update of 2^28 blocks or more of CTR or GCM processes them all, but counts their bytes modulo 2^32: the caller is told of fewer bytes and later pieces land on the first ones (`XomStream.ServedIff`, `XomStream.LongCallNotServed`). The end of a GCM operation reports the bytes of its last block even when the caller has no room for them (`GcmStream.Context.Final`).
- After a crash that left a newer root without its sectors, a later sync can complete those sectors; the load may then go on with the interrupted root (`Crash.CrashOutcomes`, `Runs.RunIsCrashSafe`).
- CMAC differs from RFC 4493 for every message that is not a whole number of blocks (`Cmac.Mac`).
- The subpage buffer is released on the last free exactly if at most 128 ranges were live (`Subpages.ReleaseExact`).

## Model

| member | source | states |
|---|---|---|
| `Kexec.ChaseExtend` | xen/stubdom/grub/kexec.c:122-132 | Extending the forwarding list redirects exactly the walks that used to end at the displaced slot |
| `Kexec.DisplaceKeepsFrames` | xen/stubdom/grub/kexec.c:129-138 | The two table writes of a step lose no frame if and only if the slot the walk ended at holds the new page's frame, and then they are a swap |
| `Kexec.StepKeepsExchanged` | xen/stubdom/grub/kexec.c:103-144 | The walk from a fresh page ends at the slot, at or above i, that holds the page's frame; the step is a swap and the chain stays sound |
| `Kexec.AllocateAfterExchangeLosesFrame` | xen/stubdom/grub/kexec.c:84-144 | A concrete run of an exchange and then an allocation after which a frame is gone |
| `Kexec.UpdatesInvertTable` | xen/stubdom/grub/kexec.c:387-398 | Applying the short update list to the old inverse map gives the whole inverse of the new table and touches no frame the domain does not own |
| `Kexec.Loader.constructor` | xen/stubdom/grub/kexec.c:285-290 | The table starts as the domain's own |
| `Kexec.Loader.Allocate` | xen/stubdom/grub/kexec.c:103-144 | After any allocation of distinct pages entry i holds the frame of the i-th page for all i, and the table is a permutation of the original |
| `Kexec.Loader.AllocateSlot` | xen/stubdom/grub/kexec.c:111-139 | One iteration, with its terminating walk: extends the pages by the new one and keeps the table a permutation |
| `Kexec.Loader.FindFrame` | xen/stubdom/grub/kexec.c:89-92 | The search succeeds if and only if the frame is in the table, and yields a slot that holds it |
| `Kexec.Loader.Exchange` | xen/stubdom/grub/kexec.c:84-101 | Fails only for a frame the domain does not own; otherwise swaps the frame into the target slot |
| `Kexec.Loader.MachineToPhysicalUpdates` | xen/stubdom/grub/kexec.c:387-398 | The list has exactly the changed entries, and applying it to any inverse of the old table gives an inverse of the new one |
| `CounterMode.GctrSplit` | openssl-provider/src/xom_aes_128_ctr.c:209-247 | GCTR of section 6.5 of NIST SP 800-38D can be computed piece by piece with the counter advanced by whole blocks |
| `CounterMode.GctrTwice` | openssl-provider/src/xom_aes_128_ctr.c:129-198 | Counter mode applied twice with the same key and IV is the identity |
| `CounterMode.Add32Adds` | openssl-provider/src/xom_aes_128_ctr.c:236-239 | Advancing the 32-bit counter by j and then k is advancing it by j + k, also across the wrap-around |
| `CounterMode.Add32Counts` | openssl-provider/src/xom_aes_128_ctr.c:236-239 | Advancing keeps the first twelve bytes and adds to the last word modulo 2^32, and no other block does both |
| `CounterMode.CountersDiffer` | openssl-provider/src/xom_aes_128_ctr.c:236-239 | Counters less than 2^32 apart give different blocks |
| `CounterMode.GctrIff` | openssl-provider/src/xom_aes_128_ctr.c:209-247 | Output is GCTR of the input if and only if each of its bytes is the input byte combined with its byte of the cipher of the block whose last word is the initial one plus the block number |
| `XomStream.Routine.Call` | openssl-provider/include/aes_xom.h:109-112 | The block routine processes some number of leading blocks, returns how many are left, and what it produced is GCTR of what it processed, for every schedule of interruptions |
| `XomStream.ServedIff` | openssl-provider/src/xom_aes_128_ctr.c:129-172 | When an update enciphers and reports every whole block it has: exactly if there is room, counted modulo 2^32, and fewer than 2^28 blocks beside the buffered one |
| `XomStream.LongCallNotServed` | openssl-provider/src/xom_aes_128_ctr.c:209-247 | A call of 2^32 + 16 bytes is processed as a whole and reported as 16 bytes |
| `XomStream.StoreCounter` | openssl-provider/src/xom_aes_128_ctr.c:104-105 | Writing the counter back byte by byte replaces exactly the last 32 bits, big-endian |
| `CtrStream.Context.CipherWhole` | openssl-provider/src/xom_aes_128_ctr.c:209-247 | The retry loop advances the counter by the whole blocks that fit and reports their bytes modulo 2^32, whatever the schedule; below 2^28 blocks the output is their GCTR |
| `CtrStream.Context.Update` | openssl-provider/src/xom_aes_128_ctr.c:129-172 | Refused exactly when a buffered block would be completed without room; otherwise the output has the reported length, is GCTR of buffered and new whole blocks if they are fewer than 2^28, and the rest is kept |
| `CtrStream.Context.Final` | openssl-provider/src/xom_aes_128_ctr.c:181-198 | The buffered bytes enciphered, cut to the room the caller has |
| `CtrStream.Stream` | openssl-provider/src/xom_aes_128_ctr.c:81-247 | For every chunking and every schedule the concatenated output is the whole text in counter mode, byte i under the cipher of the IV with its last word advanced by i / 16, if and only if every update was served and the last partial block has room |
| `GcmStream.GhashSplit` | openssl-provider/src/xom_aes_128_gcm.c:125-133 | GHASH of a concatenation of whole blocks continues from the state after the first part |
| `GcmStream.Context.constructor` | openssl-provider/src/xom_aes_128_gcm.c:163-239 | For a 96-bit IV the pre-counter block is IV followed by 1 and the first text counter is its increment |
| `GcmStream.Context.CipherWhole` | openssl-provider/src/xom_aes_128_gcm.c:418-462 | Below 2^28 blocks the whole blocks are enciphered and the ciphertext side of each piece is hashed, whatever the schedule and the piece size; the reported length is modulo 2^32 |
| `GcmStream.Context.Update` | openssl-provider/src/xom_aes_128_gcm.c:262-321 | The first short update becomes additional data; later ones advance text, hash state and block count together |
| `GcmStream.Context.Final` | openssl-provider/src/xom_aes_128_gcm.c:330-407 | The last partial block, cut to the caller's room but reported in full, and the tag; decryption compares the tag with the expected one; the context is emptied |
| `GcmStream.Run` | openssl-provider/src/xom_aes_128_gcm.c:163-462 | For every chunking and schedule the text is enciphered under the counters from 2 on, byte by byte, if and only if all updates were served and the last block has room; the reported lengths add up if and only if all updates were served; then the tag is that of section 7.1 of NIST SP 800-38D, and decryption accepts if and only if the given tag is that tag |
| `GcmStream.TagIff` | openssl-provider/src/xom_aes_128_gcm.c:330-407 | A tag is the standard's if and only if it is the last state of the hash chain over additional data, ciphertext and their lengths in bits, masked with the cipher of IV followed by 1 |
| `GcmStream.SealThenOpen` | openssl-provider/src/xom_aes_128_gcm.c:163-462 | Decrypting what was encrypted, with any two chunkings and schedules, returns the plaintext and accepts the tag that was produced; another tag is accepted if and only if it is equal |
| `IndexTree.Partition` | xen/stubdom/vtpmmgr/disk_write.c:131-173 | The children of a level are at most hsize, cover the entries in order, and none is empty |
| `IndexTree.IncrIsPower` | xen/stubdom/vtpmmgr/disk_write.c:137-138 | A child is as large as a tree of the least depth that suffices, which is a power of 112 |
| `IndexTree.ChildIsSmaller` | xen/stubdom/vtpmmgr/disk_read.c:271-323 | Why the recursion stops: below an index sector the list gets shorter |
| `IndexTree.CountBound` | xen/stubdom/vtpmmgr/disk_write.c:134-141 | All children of a level fit into its parent |
| `IndexTree.ResolveFrame` | xen/stubdom/vtpmmgr/disk_read.c:271-323 | The walk of a tree depends on no sector outside the list it collects |
| `IndexTree.ResolveDetermined` | xen/stubdom/vtpmmgr/disk_read.c:271-323 | Two disks on which the same top-level hashes verify hold the same entry hashes, wherever their sectors lie |
| `DiskLoad.LoadPrefersNewer` | xen/stubdom/vtpmmgr/disk_read.c:583-615 | Whichever slot has the newer root is tried first, the other one if it is rejected |
| `LoadLaws.GroupDetermined` | xen/stubdom/vtpmmgr/disk_read.c:327-388 | A group that verifies against the same hash on two disks is the same group, locations aside |
| `LoadLaws.AreaDetermined` | xen/stubdom/vtpmmgr/disk_read.c:205-542 | Two disks with the same root area that both load under the same keys give the same groups and vTPMs, given no collision; only the rollback flags can differ |
| `LoadLaws.RootDetermined` | xen/stubdom/vtpmmgr/disk_read.c:205-542 | With the same rollback MACs as well, the outcome is the same, flags and scan included |
| `LoadLaws.RootFrame` | xen/stubdom/vtpmmgr/disk_read.c:467-542 | A root that loads keeps loading the same, and keeps reaching the same sectors, while those stay as they are |
| `Crash.CrashOutcomes` | xen/stubdom/vtpmmgr/disk_read.c:544-619 | If writes avoid what the current root reaches, then for every subset of them, also without a root among them, the load gives the old state, logically the new one, or a newer root that the other slot held before |
| `Crash.CrashReads` | xen/stubdom/vtpmmgr/disk_io.c:49-70 | What a crash leaves: any writes may be missing, and a sector holds the last of those that are not, or what it held before |
| `Crash.ResumesInterrupted` | xen/stubdom/vtpmmgr/disk_read.c:583-615 | A newer root that comes to load again loads logically what it loads from any disk that has all of its sectors |
| `DiskIo.Device.SetUsed` | xen/stubdom/vtpmmgr/disk_io.c:97-105 | Adds the sector to the slot's set and changes nothing for the other slot; the sector just behind the table is admitted |
| `DiskIo.Device.FlushSlot` | xen/stubdom/vtpmmgr/disk_io.c:107-112 | The slot gives up exactly its dynamic sectors |
| `DiskIo.Device.FindFree` | xen/stubdom/vtpmmgr/disk_io.c:114-125 | Finds the lowest dynamic sector that neither slot uses, if and only if there is one |
| `DiskIo.Device.WriteFree` | xen/stubdom/vtpmmgr/disk_write.c:22-29 | Allocates and writes one free sector, or changes nothing when none is free |
| `Stored.EncodeDecode` | xen/stubdom/vtpmmgr/disk_write.c:43-62 | What a page sector is made of decodes to the page's vTPMs with masked flags |
| `Stored.GroupKeptMove` | xen/stubdom/vtpmmgr/disk_write.c:131-213 | A group that is on disk stays so under any change that leaves its sectors alone |
| `DiskWrite.Writer.WritePage` | xen/stubdom/vtpmmgr/disk_write.c:43-62 | A dirty page ends up in one free sector that verifies against its hash and decrypts to it; a clean one is left alone; fails only if no sector is free |
| `DiskWrite.Writer.WriteVtpmItree` | xen/stubdom/vtpmmgr/disk_write.c:131-173 | Afterwards the loader's walk finds the pages' hashes and locations in order, the in-use list has grown by exactly the sectors of the tree, and nothing but free sectors was written |
| `GroupWrite.GroupWriter.WriteGroupSector` | xen/stubdom/vtpmmgr/disk_write.c:178-213 | A stale group is on disk as it is in memory, with its list exact, and with new seals for its keys if those were stale; a clean one is left alone; the reasons for failure |
| `GroupWrite.GroupWriter.WriteGroupItree` | xen/stubdom/vtpmmgr/disk_write.c:288-321 | All groups kept and found by the loader's walk; as written, success implies at most 112 groups |
| `GroupWrite.OneChild` | xen/stubdom/vtpmmgr/disk_write.c:288-321 | Up to 112 groups need one index sector, which is why the wrong bound is then the right one |
| `Rollback.ScanExact` | xen/stubdom/vtpmmgr/disk_read.c:501-539 | The two-pointer scan runs off the table if and only if an open group lies beyond every entry; otherwise it treats exactly the open groups without a valid MAC as rolled back |
| `Rollback.ScanJudges` | xen/stubdom/vtpmmgr/disk_read.c:521-536 | After the scan a group is flagged if and only if it was or the table does not vouch for it; a newly flagged one loses its location, and nothing else of any group changes |
| `Rollback.SignRoot` | xen/stubdom/vtpmmgr/disk_write.c:338-361 | The table gets one entry per open group that is not flagged, in order, up to its size; with room left, an open group has no entry exactly if it is flagged |
| `Rollback.UnmodifiedFlagsNone` | xen/stubdom/vtpmmgr/disk_read.c:501-539 | After an unmodified write the scan flags nothing, and stays inside the table exactly when every open group but group 0 has a signing group at or after it |
| `Populate.PopulateGroup` | xen/stubdom/vtpmmgr/disk_write.c:106-125 | Marks exactly what the group's clean parts occupy |
| `Populate.PopulateAll` | xen/stubdom/vtpmmgr/disk_write.c:275-283 | After flushing and marking, the slot's dynamic sectors are exactly those of the unchanged parts |
| `Reload.KeptGroupLoads` | xen/stubdom/vtpmmgr/disk_read.c:327-388 | A group that is kept loads, with the same location, hash and list, and as memory holds it if the TPM opens it |
| `Reload.StoredVersions` | xen/stubdom/vtpmmgr/vtpm_disk.c:118-140 | Behind every header there is one version of the group on disk, which is the one in memory if the group is in sync |
| `Reload.PublishedLoads` | xen/stubdom/vtpmmgr/disk_read.c:412-465 | All groups below a published root load |
| `Sync.Store.constructor` | xen/stubdom/vtpmmgr/vtpm_disk.h:180-203 | A store whose groups agree with the disk |
| `Sync.Store.WriteRoot` | xen/stubdom/vtpmmgr/disk_write.c:326-367 | The new root lists, counts and signs the groups, all of which are kept; only free sectors and then the root sector were written; if it fails, why |
| `Sync.Store.WriteSealList` | xen/stubdom/vtpmmgr/disk_write.c:219-270 | Writes the slot's list unless it is valid: what it parses to has one entry for each configuration i of group 0, sealed from the keys for i; fails only for more seals than fit |
| `Sync.Store.WriteAll` | xen/stubdom/vtpmmgr/disk_write.c:372-381 | Marking, root and seal list together: exact accounting, a published root, and groups brought up to date |
| `Sync.Store.SyncDisk` | xen/stubdom/vtpmmgr/vtpm_disk.c:23-105 | For every depth: skipped exactly without a sealed group 0; else sequence and slot advance, the other slot's sectors are untouched, the root is published with exact accounting, and a group is in sync afterwards if and only if it was stale or in sync before; counter failure restores slot and counter; a key update aborts with nothing written; an authorisation update makes the other slot's seal list stale; the reasons for an abort |
| `StoreTheorems.AccountingExact` | xen/stubdom/vtpmmgr/disk_io.c:97-125 | The dynamic sectors that carry the slot's bit are exactly those that loading its root reaches |
| `StoreTheorems.RoundTrip` | xen/stubdom/vtpmmgr/disk_read.c:467-542 | Loading a complete sync rebuilds counter, sequence and every group as last written with flags masked, exactly if the scan stays in its table; as the code is written the groups come back if and only if none has more than one page |
| `StoreTheorems.PlaceExact` | xen/stubdom/vtpmmgr/disk_read.c:241-265 | Pages placed as the code is written are in their places if and only if there is at most one |
| `StoreTheorems.SyncOutcomes` | xen/stubdom/vtpmmgr/vtpm_disk.c:23-105 | Whatever subset of a sync's writes survives, complete or aborted before or after its root, the load gives the state before it, logically the state after it, or a newer root that was there before |
| `StoreTheorems.SyncIsCrashSafe` | xen/stubdom/vtpmmgr/vtpm_disk.c:23-105 | With no newer root in the other slot: the state before it or logically the state after it |
| `StoreTheorems.SyncProtects` | xen/stubdom/vtpmmgr/disk_write.c:372-381 | A complete sync, also the first one of a disk, leaves the new root protected by the allocation table, with no newer root in the other slot if there was none |
| `StoreTheorems.SyncKeepsProtected` | xen/stubdom/vtpmmgr/disk_write.c:372-381 | After a sync from a protected slot the new root is protected and the older one is in the other slot, so that the next sync is crash safe too |
| `StoreTheorems.SyncKeepsCurrent` | xen/stubdom/vtpmmgr/vtpm_disk.c:65-74 | Complete or not, a sync leaves the slot it started from protected, to which a failed counter increment returns |
| `StoreTheorems.FirstSyncIsCrashSafe` | xen/stubdom/vtpmmgr/vtpm_disk.c:23-105 | Whatever subset of the first sync's writes survives on a disk without roots, nothing loads or logically the state after it |
| `Runs.SafeSync` | xen/stubdom/vtpmmgr/vtpm_disk.c:23-105 | Calls `SyncDisk` and concludes crash safety from its contract, whatever the result: every subset of its writes loads as one of the outcomes, the slot that is active afterwards is protected, and the sync is an episode of a run |
| `Runs.EpisodeKeepsReady` | xen/stubdom/vtpmmgr/disk_read.c:544-619 | After a complete sync, a failed increment, or a crash, abort and restart, the slot in use is protected again, and a newer root in the other slot is one that was complete on a disk of the run |
| `Runs.RunIsCrashSafe` | xen/stubdom/vtpmmgr/vtpm_disk.c:23-105 | In any run of complete syncs, failed increments, crashes and restarts, also under a TPM that answers differently after a restart, a crash in the middle of any sync loads as before that sync, logically as after it, or logically as the newer root of an earlier interrupted sync |
| `Runs.FirstSync` | xen/stubdom/vtpmmgr/disk_write.c:388-419 | From a new disk: the first sync is crash safe, and once it is complete any run can start from there |
| `Runs.ConfigurationOpens` | xen/stubdom/vtpmmgr/disk_read.c:159-199 | In any of the configurations for which a list has entries the platform opens the list to the keys |
| `VtpmTable.Create` | xen/stubdom/vtpmmgr/vtpm_disk.c:159-187 | In a paged group the aborts are unreachable, the table grows by one zeroed vTPM at its end, and only the last page changes |
| `VtpmTable.Delete` | xen/stubdom/vtpmmgr/vtpm_disk.c:189-212 | Refused exactly for an open vTPM; otherwise the last entry takes the place of the deleted one, pages stay full but for the last, indices stay positions, and every changed page is dirty |
| `VtpmTable.WithoutConserves` | xen/stubdom/vtpmmgr/vtpm_disk.c:189-212 | Deleting loses the deleted vTPM and no other |
| `VtpmTable.Find` | xen/stubdom/vtpmmgr/vtpm_disk.c:214-237 | Finds the first vTPM with the UUID in the first open group that has one, or there is none |
| `VtpmTable.LoadedClosed` | xen/stubdom/vtpmmgr/vtpm_disk.h:97-99 | The open flag is not among the flags that are stored: what is loaded is closed, and setting the flag opens it |
| `Commands.CleanPageOnDisk` | xen/stubdom/vtpmmgr/disk_write.c:43-62 | Page cache coherence: a page that is not dirty is on disk, its hash is that of the sector, and the sector decrypts to its vTPMs with masked flags |
| `Commands.SyncGroup` | xen/stubdom/vtpmmgr/vtpm_disk.c:118-140 | Whatever changed in the group, a complete sync makes it durable with the same vTPMs, one later in sequence, under new keys if asked, then with seals made for those keys; the counter advances exactly for the depths that ask for it; other groups keep their vTPMs and are in sync as before |
| `Commands.SyncVtpm` | xen/stubdom/vtpmmgr/vtpm_disk.c:148-155 | An edit of one page becomes durable, and the store stays coherent |
| `Commands.VtpmNew` | xen/stubdom/vtpmmgr/vtpm_cmd_handler.c:712-739 | The group's table grows by the new vTPM, durably |
| `Commands.Save` | xen/stubdom/vtpmmgr/vtpm_cmd_handler.c:172-177 | Exactly the given vTPM's data is replaced, padded with zeros, durably; sizes outside 52 to 64 are refused and change nothing |
| `Commands.SaveNew` | xen/stubdom/vtpmmgr/vtpm_cmd_handler.c:158-177 | An unknown UUID gets a vTPM in group 0 with the data; the first one there is the administrator |
| `Clients.Client.SaveHashKey` | xen/stubdom/vtpmmgr/vtpm_cmd_handler.c:133-184 | The specified verdict, with or without a cached vTPM, an unknown UUID getting one; wrong sizes and refusals change nothing; after success the cached vTPM has the data and the store is coherent |
| `Clients.Client.LoadHashKey` | xen/stubdom/vtpmmgr/vtpm_cmd_handler.c:186-212 | The specified verdict; after success the stored data of the cached vTPM, cut to 52 bytes if the rest is zero |
| `Clients.Client.MayManage` | xen/stubdom/vtpmmgr/vtpm_cmd_handler.c:767-774 | Management is allowed exactly with an administrator's vTPM cached |
| `Clients.Client.Session` | xen/stubdom/vtpmmgr/vtpm_cmd_handler.c:101-212 | The replies to any sequence of one client's commands are the specified ones, one for each that gets as far as the lookup, all of them unless a sync aborts; every served one was granted or comes after one that was if and only if refusals empty the cache or the stated condition on the attempts holds |
| `Clients.Verdict` | xen/stubdom/vtpmmgr/vtpm_cmd_handler.c:101-131 | Served exactly with a vTPM cached or granted; the cache stays empty exactly if the UUID is unknown or its vTPM open already |
| `Clients.ServedExact` | xen/stubdom/vtpmmgr/vtpm_cmd_handler.c:101-131 | A command is served exactly if it is granted itself or comes after one that found the vTPM; with refusals emptying the cache, after one that was granted |
| `Clients.AccessExact` | xen/stubdom/vtpmmgr/vtpm_cmd_handler.c:101-131 | Over a whole connection only what is granted is served if and only if refusals empty the cache, or the attempt that first finds the vTPM is granted, or the next one is, or there is none |
| `Clients.RefusedThenServed` | xen/stubdom/vtpmmgr/vtpm_cmd_handler.c:118-130 | Two unauthorised attempts on a closed vTPM, of which the second is served |
| `Clients.SentBack` | xen/stubdom/vtpmmgr/vtpm_cmd_handler.c:172-204 | What was saved is what is loaded exactly for 52 bytes, or for 64 that do not end in twelve zeros |
| `Commands.VtpmDel` | xen/stubdom/vtpmmgr/vtpm_cmd_handler.c:741-765 | Succeeds exactly for a known vTPM that is not open and removes just it; the store stays coherent, but the group is not in sync and every version that was on disk still is |
| `Commands.DeletionNotDurable` | xen/stubdom/vtpmmgr/vtpm_cmd_handler.c:741-765 | While the version on disk is the one from before a deletion, loading the group brings the whole table back if its pages land in their places; as the code is written, the deleted vTPM is back exactly if its page is the last of its leaf |
| `Clients.Client.FindVerified` | xen/stubdom/vtpmmgr/vtpm_cmd_handler.c:101-131 | Succeeds exactly with a cached vTPM or for a known, closed one whose group lists the client's kernel, and says which refusal applies; a refused client keeps the vTPM cached; only a grant sets the open flag |
| `DiskRead.Reader.ReadPage` | xen/stubdom/vtpmmgr/disk_read.c:205-239 | Succeeds with exactly the page that the sector shows: it decodes, has the hash, and holds the vTPMs of the page under the group's key; marks the sector |
| `DiskRead.Reader.ReadPages` | xen/stubdom/vtpmmgr/disk_read.c:241-265 | Succeeds exactly if every page of the leaf loads; as written, only the last of them stays, at the leaf's start |
| `DiskRead.Reader.ReadVtpmItree` | xen/stubdom/vtpmmgr/disk_read.c:271-323 | Succeeds exactly if the walk and all pages do; fills the pages, collects the list and marks exactly the sectors on it |
| `GroupRead.Loader.ReadGroup` | xen/stubdom/vtpmmgr/disk_read.c:327-388 | Succeeds with exactly the group that the disk shows: sector and pages decode and have their hashes, an open group is authenticated by its own key; marks its sector and list |
| `GroupRead.Loader.ReadGroupItree` | xen/stubdom/vtpmmgr/disk_read.c:412-465 | Succeeds exactly if the walk and all groups do; fills the groups in order and marks exactly what they use |
| `GroupRead.Loader.LoadRootPost` | xen/stubdom/vtpmmgr/disk_read.c:467-542 | Rejects exactly if the TPM refuses the counter or some group is not shown or group 0 is locked; else yields the groups below the root with the rollback flags of those that the table does not vouch for, unless the scan leaves it; the slot's new marks are exactly what the root reaches |
| `Authentic.GroupIff` | xen/stubdom/vtpmmgr/disk_read.c:327-388 | A group loads if and only if the disk shows it: its sector has the hash, the TPM opens or locks it, its own MAC is right if it is open, and every page below decodes, has its hash and is in its place |
| `Authentic.RootAnswers` | xen/stubdom/vtpmmgr/disk_read.c:467-542 | What loading a root answers, in terms of the sectors, hashes, MACs and TPM answers alone |
| `Authentic.OneAnswer` | xen/stubdom/vtpmmgr/disk_read.c:467-542 | For a table as the writer orders it no other answer satisfies that description |
| `GroupRead.ScanGroups` | xen/stubdom/vtpmmgr/disk_read.c:501-539 | The loop leaves the table exactly if an open group lies beyond every entry; otherwise it flags exactly the groups that the table does not vouch for and changes nothing else |
| `GroupRead.FindRootKey` | xen/stubdom/vtpmmgr/disk_read.c:159-199 | Yields the keys of the first entry of the list that opens, or none does |
| `GroupRead.LoadDisk` | xen/stubdom/vtpmmgr/disk_read.c:544-619 | Has the specified outcome, which is what the root of its slot shows, and the active slot's new marks are exactly what the loaded root reaches |
| `Restart.LoadedInSync` | xen/stubdom/vtpmmgr/disk_read.c:544-619 | A group that a load of a complete sync yields is in sync with the disk if and only if its pages land in their places, and then commands and syncs can go on |
| `Restart.Boot` | xen/stubdom/vtpmmgr/disk_read.c:544-619 | After loading into a fresh allocation table the loaded root is protected and its accounting exact, also when a newer root was rejected |
| `Restart.NewDisk` | xen/stubdom/vtpmmgr/disk_write.c:388-419 | A new disk is a coherent store with one stale, empty group |
| `DiskCrypto.EncryptCtr` | xen/stubdom/vtpmmgr/disk_crypto.c:56-109 | Aborts exactly unless the plaintext fits and the target is whole blocks or the plaintext ends in its last partial block; else the target is the IV and the padded plaintext, byte i combined with the cipher of the IV counted up by i / 16, also in place, and no other byte changes |
| `DiskCrypto.DecryptCtr` | xen/stubdom/vtpmmgr/disk_crypto.c:111-148 | Aborts exactly if the source is too short; else byte i of the target is that of the source combined with the cipher of its IV counted up by i / 16, also in place, and no other byte changes |
| `DiskCrypto.CounterCounts` | xen/stubdom/vtpmmgr/disk_crypto.c:46-54 | The n-th counter block keeps the first eight bytes and adds n to the second word modulo 2^64, little-endian, and no other block does both |
| `DiskCrypto.CountersDiffer` | xen/stubdom/vtpmmgr/disk_crypto.c:46-54 | Counters less than 2^64 apart give different blocks |
| `DiskCrypto.CtrIff` | xen/stubdom/vtpmmgr/disk_crypto.c:56-148 | Counter mode of the whole buffer is that combination of every byte, and nothing else is |
| `DiskCrypto.CtrRoundTrip` | xen/stubdom/vtpmmgr/disk_crypto.c:56-148 | Deciphering what was enciphered gives the plaintext back, whatever the padding |
| `DiskCrypto.PageRoundTrip` | xen/stubdom/vtpmmgr/disk_write.c:57 | The secrets of a page, enciphered and deciphered where they lie, come back |
| `Cmac.ShiftMod` | xen/stubdom/vtpmmgr/disk_crypto.c:150-157 | The bytewise shift is doubling of the big-endian number in GF(2^128) |
| `Cmac.Mac` | xen/stubdom/vtpmmgr/disk_crypto.c:166-193 | For an injective cipher the MAC is AES-CMAC of section 2.4 of RFC 4493 if and only if the message is whole blocks; otherwise it is what that algorithm would give with zeros for padding |
| `VtpmBlk.CbcRoundTrip` | xen/stubdom/vtpm/vtpmblk.c:180-225 | CBC decryption undoes CBC encryption |
| `VtpmBlk.CbcEncryptIff` | xen/stubdom/vtpm/vtpmblk.c:180-187 | Output is the CBC encryption if and only if each block is the cipher of the plaintext block combined with the output block before it, the first one with the IV |
| `VtpmBlk.CbcDecryptIff` | xen/stubdom/vtpm/vtpmblk.c:199-229 | Output is the CBC decryption if and only if each block is the deciphered block combined with the ciphertext block before it |
| `VtpmBlk.ImageRoundTrip` | xen/stubdom/vtpm/vtpmblk.c:124-235 | An encrypted image decrypts to the padded clear text with the length that the IV carries |
| `VtpmBlk.RawRoundTrip` | xen/stubdom/vtpm/vtpmblk.c:66-122 | A slot reads back what was written to it |
| `VtpmBlk.CommittedReads` | xen/stubdom/vtpm/vtpmblk.c:274-354 | Committed data can be read if and only if it is in slot 0 or slot 0 has a readable length |
| `VtpmBlk.CrashRecovers` | xen/stubdom/vtpm/vtpmblk.c:240-354 | After a crash in a write of the other slot the committed data comes back if and only if it is in slot 0 or the torn slot 0 has a readable length; after a complete write the new data comes back |
| `VtpmBlk.TornExact` | xen/stubdom/vtpm/vtpmblk.c:240-354 | After a crash in a write of the committed slot itself the data comes back if and only if its image is still there and slot 0 has a readable length |
| `VtpmBlk.FailureExposes` | xen/stubdom/vtpm/vtpmblk.c:247-250 | Every plausible tear of the next write is harmless if and only if that write goes to the other slot; after one failure it does not |
| `VtpmBlk.RunCommits` | xen/stubdom/vtpm/vtpmblk.c:240-354 | After every run of writes, failed or torn writes and restarts, no two failures in a row, some slot holds the data written last, and the next write goes to the other one exactly unless the run has just failed |
| `VtpmBlk.RunRecovers` | xen/stubdom/vtpm/vtpmblk.c:240-354 | The exact condition under which a crash in the write after any such run leaves the data written last readable |
| `VtpmBlk.Nvm.WriteState` | xen/stubdom/vtpm/vtpmblk.c:240-272 | Flips the slot in any case; succeeds exactly if the image is below 2 GiB and fits, the device writes it and the manager saves the hash; a written slot holds the length, the random bytes, the clear length and the padded text chained block by block under the new key; the saved hash is that image's; the other slot is never touched |
| `VtpmBlk.Nvm.ReadState` | xen/stubdom/vtpm/vtpmblk.c:274-354 | Yields the specified buffer, claimed length and active slot, also for malformed images and when the device fails; a buffer is the slot's image unchained block by block under the saved key, and the image has the saved hash |
| `Subpages.MaskFree` | libxom/libxom.c:687-712 | The mask test holds exactly if no subpage of the range is taken |
| `Subpages.BytesDisjoint` | libxom/libxom.c:625-685 | Ranges without a common subpage have no common byte and lie within their pages |
| `Subpages.ReleaseExact` | libxom/libxom.c:730-742 | With an eight-bit count the first free that releases the buffer is the last one if and only if at most 128 ranges were live |
| `Subpages.Buffer.constructor` | libxom/libxom.c:590-596 | Sizes rounded up to subpages, nothing taken |
| `Subpages.Buffer.Search` | libxom/libxom.c:699-707 | Finds the first free range in the first page that has one, if and only if some usable page has one |
| `Subpages.Buffer.Fill` | libxom/libxom.c:687-712 | Succeeds exactly for a valid size when a usable page has room; ranges handed out stay pairwise disjoint and the bitmap is exactly their union |
| `Subpages.Buffer.Take` | libxom/libxom.c:682-684 | Marks exactly the range and counts one reference |
| `Subpages.Buffer.Free` | libxom/libxom.c:730-742 | Rejects addresses outside the buffer; with 1 to 128 live ranges it releases the buffer exactly on the last one |

## Left out

- AES, GHASH multiplication, SHA and their assembly are function parameters; so are the copies that the ciphers make of unaligned buffers.
- TPM commands: what a seal opens to is an oracle. Crash safety assumes that the platform is in one of group 0's configurations and that the TPM opens the entry sealed for it; that the list then opens is proved. Chained seal lists are not modelled, nor are the marks on the four fixed sectors.
- The widths of stored fields: `Faithful` is assumed of all values, while the real layouts hold only values that fit.
- Errors of the manager's block device, on which it aborts, count as crashes; memory allocation does not fail.
- Aliasing of vTPM and group structures: groups are values that the store's methods replace. A client's cached vTPM is a position in them, so that a deletion by another client, which would move or free it, is not captured; a connection is modelled by itself, without its end.
- GroupWrite.GroupWriter.WriteGroupItree: with more than 112 groups the code writes past its arrays; the model stops there and reports failure, because what such a write hits is not defined.
- Sync.Store.SyncDisk: the authorisations that two of the depths replace are not part of the store, so what the TPM refuses after the change is not captured.
- Runs.RunIsCrashSafe: the TPM's answers may change at a restart but not in between, and sequence numbers grow, which fails only at the wrap-around of 64 bits.
- GCM with an IV that is not 96 bits, additional data of 16 bytes or more, and input and output buffers that overlap.
- VtpmBlk.Nvm.WriteState: data that pads to 4 GiB or more is excluded, because its length is cut to 32 bits and what the code then writes is not defined.
- The HMAC provider, the subpage pool, the kernel module, memory protection and code migration in libxom, and marshalling headers.
