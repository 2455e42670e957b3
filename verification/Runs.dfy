/**
 Whole runs of the store: syncs, failed counter increments, crashes and restarts, one after the other.
 */
module Runs {
  import opened Wrappers
  import opened Bytes
  import opened DiskFormat
  import opened IndexTree
  import opened DiskLoad
  import opened LoadLaws
  import opened Crash
  import opened DiskIo
  import opened Stored
  import opened GroupWrite
  import opened Rollback
  import opened Reload
  import opened Sync
  import opened StoreTheorems
  import opened Restart

  lemma NoCollisionSubset(c: Codec, key: Key, all: set<Blob>, blobs: set<Blob>)
    requires NoCollision(c, key, all) && blobs <= all
    ensures NoCollision(c, key, blobs)
  {
  }

  /** The platform is in configuration i of the group: the TPM opens that entry, and no other entry opens to
      anything else. */
  ghost predicate InConfiguration(tpm: Tpm, seal: Sealer, keys: RootKeys, g: Group, i: nat) {
    && i < g.nrSeals && (forall random :: tpm.unsealEntry(seal(keys, g, i, random)) == Some(keys))
    && forall j: nat, random :: j < g.nrSeals ==> tpm.unsealEntry(seal(keys, g, j, random)) in {None, Some(keys)}
  }

  /** In any of its configurations the platform opens a list that has an entry for each of them. */
  lemma ConfigurationOpens(tpm: Tpm, seal: Sealer, keys: RootKeys, g: Group, i: nat, entries: seq<Blob>)
    requires InConfiguration(tpm, seal, keys, g, i) && EntriesFor(seal, keys, g, entries)
    ensures FirstOpen(tpm.unsealEntry, entries) == Some(keys)
  {
    hide FirstOpen;
    assert EntryFor(seal, keys, g, i, entries[i]);
    var k := 0;
    while tpm.unsealEntry(entries[k]).None?
      invariant k <= i && forall j :: 0 <= j < k ==> tpm.unsealEntry(entries[j]).None?
      decreases i - k
    {
      k := k + 1;
    }
    assert EntryFor(seal, keys, g, k, entries[k]);
    FirstOpenAt(tpm.unsealEntry, entries, k);
  }

  /** The platform is in one of the configurations of group 0. */
  ghost predicate Configured(tpm: Tpm, seal: Sealer, keys: RootKeys, groups: seq<GroupHdr>) {
    |groups| > 0 && groups[0].v.Some? ==> exists i :: InConfiguration(tpm, seal, keys, groups[0].v.value, i)
  }

  lemma OpensLists(c: Codec, tpm: Tpm, seal: Sealer, keys: RootKeys, groups: seq<GroupHdr>, slot: nat, log: seq<Write>)
    requires Configured(tpm, seal, keys, groups) && ListsSealed(c, seal, keys, groups, slot, log)
    ensures SealsOpen(c, tpm, keys, slot, log)
  {
    hide InConfiguration, EntriesFor, FirstOpen;
    forall w | w in log && w.sector == slot ensures UnsealRoot(c, tpm, w.blob) == Some(keys) {
      var g := groups[0].v.value;
      var i :| InConfiguration(tpm, seal, keys, g, i);
      ConfigurationOpens(tpm, seal, keys, g, i, c.openList(w.blob).value);
    }
  }

  /** The environment of a sync: the platform is in one of its configurations, the TPM takes the new root unless
      it refuses its counter, and no two of the blobs involved collide. */
  ghost predicate Environment(c: Codec, tpm: Tpm, seal: Sealer, keys: RootKeys, a: Snapshot, b: Snapshot, slot: nat,
                              wrote: bool, root: RootSector, groups: seq<GroupHdr>)
    requires |a.log| <= |b.log|
  {
    && Configured(tpm, seal, keys, groups)
    && NoCollision(c, keys.tm, Blobs(a.disk) + BlobsOf(b.log[|a.log|..]))
    && (wrote ==> Accepts(c, tpm, keys, b.disk, slot, groups, root) || !tpm.counterOk(root.area.counter))
  }

  /** How a sync of a run ends.  An abort ends the manager, so that it counts as a crash. */
  datatype Ending = Complete | NotIncremented | Crashed(kept: seq<bool>)

  /** One sync of a run from slot 1 - slot, whose root is current: the TPM, the device before it and after all of
      its writes, what it wrote, and the device, slot and root that the next one starts from. */
  datatype Episode = Episode(tpm: Tpm, a: Snapshot, b: Snapshot, slot: nat, current: RootSector, wrote: bool,
                             written: RootSector, groups: seq<GroupHdr>, leaves: Leaves, ending: Ending, next: Snapshot,
                             nextSlot: nat, nextRoot: RootSector)
  {
    function Log(): seq<Write>
      requires |a.log| <= |b.log|
    {
      b.log[|a.log|..]
    }

    function After(kept: seq<bool>): Disk
      requires |a.log| <= |b.log| && |kept| == |b.log| - |a.log|
    {
      Apply(a.disk, Kept(Log(), kept))
    }
  }

  /** What Boot establishes when a disk loads. */
  ghost predicate Booted(c: Codec, tpm: Tpm, keys: RootKeys, fixed: bool, now: Snapshot, slot: nat, root: RootSector)
    requires Sized(c)
  {
    && slot < 2 && |now.used| == 2
    && Load(c, tpm, now.disk, fixed).Loaded? && Load(c, tpm, now.disk, fixed).m.activeRoot == slot
    && FindRoot(c, tpm, now.disk, slot).Some? && FindRoot(c, tpm, now.disk, slot).value.root == root
    && forall s: Sector :: Reached(c, tpm, now.disk, keys, fixed, root, s) ==> Dynamic(s) && s in now.used[slot]
  }

  /** What SyncDisk guarantees of a sync, together with its environment. */
  ghost predicate Synced(c: Codec, tpm: Tpm, keys: RootKeys, ep: Episode, blobs: set<Blob>)
    requires Sized(c)
  {
    && ep.slot < 2 && SyncStep(c, keys.tm, ep.a, ep.b, ep.slot, ep.wrote, ep.written)
    && SealsOpen(c, tpm, keys, ep.slot, ep.Log())
    && (ep.wrote ==> Due(c, tpm, keys, ep.b, ep.slot, ep.current, ep.written, ep.groups, ep.leaves))
    && Blobs(ep.a.disk) + BlobsOf(ep.Log()) <= blobs
  }

  /** What the device is left with. */
  ghost predicate Ended(ep: Episode)
    requires |ep.a.log| <= |ep.b.log|
  {
    match ep.ending
    case Crashed(kept) => |kept| == |ep.Log()| && ep.next.disk == ep.After(kept)
    case _ => ep.next == ep.b
  }

  ghost predicate Ends(c: Codec, tpm: Tpm, keys: RootKeys, fixed: bool, ep: Episode)
    requires Sized(c) && ep.slot < 2 && |ep.a.log| <= |ep.b.log|
  {
    && Ended(ep)
    && match ep.ending
       case Complete =>
         && ep.wrote && ep.nextSlot == ep.slot < |ep.b.used| && ep.nextRoot == ep.written
         && tpm.counterOk(ep.written.area.counter) && ExactlyUsed(ep.b.used[ep.slot], ep.groups, ep.leaves)
         && !LoadRoot(c, tpm, ep.b.disk, keys, fixed, ep.slot, ep.written).OutOfBounds?
       case NotIncremented => ep.wrote && ep.nextSlot == 1 - ep.slot && ep.nextRoot == ep.current
       case Crashed(_) => Booted(c, tpm, keys, fixed, ep.next, ep.nextSlot, ep.nextRoot)
  }

  /** A sync that may be cut short, as an episode of a run.  Whatever part of its writes reaches the disk, and
      whether it completes, aborts or fails to increment the counter, loading yields the state before, the
      state after or a newer root that was there before; and the slot that is active afterwards is
      protected. */
  method SafeSync(store: Store, depth: Depth, tpmOk: bool, ghost tpm: Tpm, ghost root: RootSector)
    returns (result: Result, ghost ep: Episode)
    requires store.Valid() && |store.groups| > 0
    requires Protected(store.c, tpm, Now(store.dev), store.keys, store.fixed, store.activeRoot, root)
    requires root.area.sequence <= store.sequence < 0xFFFF_FFFF_FFFF_FFFF
    modifies store, store.dev, store.dev.inuse
    ensures store.dev.Valid() && store.activeRoot < 2
    ensures ep.a == old(Now(store.dev)) && ep.b == Now(store.dev) && ep.slot == 1 - old(store.activeRoot)
    ensures ep.current == root
    ensures result == Skipped ==> ep.b == ep.a && store.activeRoot == old(store.activeRoot)
    ensures var c, keys, fixed := store.c, store.keys, store.fixed;
      && |ep.a.log| <= |ep.b.log|
      && (result != Skipped && Environment(c, tpm, store.seal, keys, ep.a, ep.b, ep.slot, ep.wrote, ep.written,
                                           store.groups) ==>
          && Synced(c, tpm, keys, ep, Blobs(ep.a.disk) + BlobsOf(ep.Log()))
          && (forall kept: seq<bool> :: |kept| == |ep.Log()| ==>
                Recovers(c, tpm, ep.a.disk, ep.b.disk, ep.After(kept), keys, fixed, 1 - ep.slot, root))
          && (result == Done && tpm.counterOk(ep.written.area.counter)
              && !LoadRoot(c, tpm, ep.b.disk, keys, fixed, store.activeRoot, ep.written).OutOfBounds? ==>
              && ep.ending == Complete && Ends(c, tpm, keys, fixed, ep)
              && store.activeRoot == ep.slot && ep.written.area.sequence == store.sequence
              && Protected(c, tpm, ep.b, keys, fixed, store.activeRoot, ep.written)
              && Calm(c, ep.b.disk, keys, store.activeRoot, ep.written))
          && (result == CounterFailed ==>
              && ep.ending == NotIncremented && Ends(c, tpm, keys, fixed, ep)
              && store.activeRoot == 1 - ep.slot
              && Protected(c, tpm, ep.b, keys, fixed, store.activeRoot, root)))
  {
    hide Protected, SyncStep, Published, ExactlyUsed, NoCollision, Accepts, SealsOpen, Recovers, Calm, LoadRoot, Kept,
         Apply, BlobsOf, Due, GroupsWritten, BroughtUp, Tabled, Coherent, ListsSealed, Configured, Blobs;
    ghost var a, c, keys, fixed, slot := Now(store.dev), store.c, store.keys, store.fixed, 1 - store.activeRoot;
    ghost var wrote, written, leaves;
    result, wrote, written, leaves := store.SyncDisk(depth, tpmOk);
    ghost var b := Now(store.dev);
    ep := if result == CounterFailed
      then Episode(tpm, a, b, slot, root, wrote, written, store.groups, leaves, NotIncremented, b, 1 - slot, root)
      else Episode(tpm, a, b, slot, root, wrote, written, store.groups, leaves, Complete, b, slot, written);
    if result != Skipped {
      SyncStepLog(c, keys.tm, a, b, slot, wrote, written);
      if Environment(c, tpm, store.seal, keys, a, b, slot, wrote, written, store.groups) {
        ghost var log := b.log[|a.log|..];
        OpensLists(c, tpm, store.seal, keys, store.groups, slot, log);
        if wrote {
          DueBy(c, tpm, keys, b, slot, root, written, store.groups, leaves);
        }
        forall kept: seq<bool> | |kept| == |log|
          ensures Recovers(c, tpm, a.disk, b.disk, ep.After(kept), keys, fixed, 1 - slot, root)
        {
          SyncOutcomes(c, tpm, a, b, keys, fixed, slot, root, wrote, written, store.groups, leaves, kept);
        }
        if result == Done && tpm.counterOk(written.area.counter)
           && !LoadRoot(c, tpm, b.disk, keys, fixed, slot, written).OutOfBounds? {
          SyncKeepsProtected(c, tpm, a, b, keys, fixed, slot, root, written, store.groups, leaves);
        } else if result == CounterFailed {
          SyncKeepsCurrent(c, tpm, a, b, keys, fixed, slot, root, wrote, written);
        }
      }
    }
  }

  lemma SyncStepLog(c: Codec, key: Key, a: Snapshot, b: Snapshot, slot: nat, wrote: bool, root: RootSector)
    requires SyncStep(c, key, a, b, slot, wrote, root)
    ensures |a.log| <= |b.log| && |a.used| == |b.used| == 2
  {
  }

  lemma DueBy(c: Codec, tpm: Tpm, keys: RootKeys, b: Snapshot, slot: nat, root: RootSector, root': RootSector,
              groups: seq<GroupHdr>, leaves: Leaves)
    requires Sized(c) && slot < |b.used| && root'.area.sequence > root.area.sequence
    requires Published(c, b.disk, b.used[slot], keys.tm, groups, root', leaves)
    requires Accepts(c, tpm, keys, b.disk, slot, groups, root') || !tpm.counterOk(root'.area.counter)
    ensures Due(c, tpm, keys, b, slot, root, root', groups, leaves)
  {
    hide Published, Accepts;
  }

  /** The disk that has all the sectors of the root that the next episode does not start from. */
  ghost function NextFull(c: Codec, keys: RootKeys, ep: Episode, full: Disk): Disk {
    if ep.nextSlot == ep.slot then ep.next.disk
    else if ep.wrote && c.openRoot(keys.tm, Read(ep.next.disk, 2 + ep.slot)) == Some(ep.written) then ep.b.disk
    else full
  }

  /** The store before an episode: the current slot is protected, and a newer root in the other slot is the
      one that was complete on the given disk. */
  ghost predicate Ready(c: Codec, tpm: Tpm, keys: RootKeys, fixed: bool, now: Snapshot, slot: nat, root: RootSector,
                        full: Disk)
    requires Sized(c)
  {
    Protected(c, tpm, now, keys, fixed, slot, root) && Interrupted(c, tpm, now.disk, keys, fixed, slot, root, full)
  }

  lemma CompleteKeepsReady(c: Codec, tpm: Tpm, keys: RootKeys, fixed: bool, ep: Episode, blobs: set<Blob>, full: Disk)
    requires Sized(c) && Synced(c, tpm, keys, ep, blobs) && Ends(c, tpm, keys, fixed, ep) && ep.ending.Complete?
    requires Ready(c, tpm, keys, fixed, ep.a, 1 - ep.slot, ep.current, full)
    ensures Ready(c, tpm, keys, fixed, ep.next, ep.nextSlot, ep.nextRoot, NextFull(c, keys, ep, full))
    ensures Load(c, tpm, ep.next.disk, fixed) == Try(c, tpm, ep.next.disk, fixed, ep.nextSlot)
  {
    hide SyncStep, SealsOpen, Published, Accepts, ExactlyUsed, LoadRoot, Standing, Calm, Reached, Load, FindRoot,
         Dynamic, Try;
    SyncKeepsProtected(c, tpm, ep.a, ep.b, keys, fixed, ep.slot, ep.current, ep.written, ep.groups, ep.leaves);
    LoadBefore(c, tpm, ep.b.disk, keys, fixed, ep.slot, ep.written);
  }

  lemma {:induction false} WrittenRoot(c: Codec, key: Key, a: Snapshot, b: Snapshot, slot: nat, root: RootSector)
    requires SyncStep(c, key, a, b, slot, true, root)
    ensures c.openRoot(key, Read(b.disk, 2 + slot)) == Some(root)
  {
    hide Dynamic, Apply;
    ReadWritten(a.disk, b.log[|a.log|..], 2 + slot);
    NoStaticWrites(c, key, slot, a.used[1 - slot], b.log[|a.log|..], root);
  }

  lemma NotIncrementedKeepsReady(c: Codec, tpm: Tpm, keys: RootKeys, fixed: bool, ep: Episode, blobs: set<Blob>,
                                 full: Disk)
    requires Sized(c) && Synced(c, tpm, keys, ep, blobs) && Ends(c, tpm, keys, fixed, ep) && ep.ending.NotIncremented?
    requires Ready(c, tpm, keys, fixed, ep.a, 1 - ep.slot, ep.current, full)
    ensures Ready(c, tpm, keys, fixed, ep.next, ep.nextSlot, ep.nextRoot, NextFull(c, keys, ep, full))
  {
    hide SyncStep, SealsOpen, Due, Standing, Calm, Reached, FindRoot, Dynamic, Try, Protected;
    SyncKeepsCurrent(c, tpm, ep.a, ep.b, keys, fixed, ep.slot, ep.current, true, ep.written);
    WrittenRoot(c, keys.tm, ep.a, ep.b, ep.slot, ep.written);
    DueLoads(c, tpm, ep.a, ep.b, keys, fixed, ep.slot, ep.current, ep.written, ep.groups, ep.leaves);
    assert 3 - (1 - ep.slot) == 2 + ep.slot && 1 - (1 - ep.slot) == ep.slot;
  }

  /** The two slots after a crash. */
  lemma AfterCrash(c: Codec, tpm: Tpm, keys: RootKeys, fixed: bool, ep: Episode, blobs: set<Blob>, kept: seq<bool>)
    requires Sized(c) && Synced(c, tpm, keys, ep, blobs) && |kept| == |ep.Log()|
    requires Protected(c, tpm, ep.a, keys, fixed, 1 - ep.slot, ep.current)
    ensures Standing(c, tpm, ep.After(kept), keys, fixed, 1 - ep.slot, ep.current)
    ensures var held := c.openRoot(keys.tm, Read(ep.After(kept), 2 + ep.slot));
      held == c.openRoot(keys.tm, Read(ep.a.disk, 2 + ep.slot)) || (held == Some(ep.written) && ep.wrote)
  {
    hide LogShape, SealsOpen, Due, Reached, FindRoot, Dynamic, Try, Apply, Kept, SyncLog, WritesRoot;
    var a, log := 1 - ep.slot, ep.Log();
    ProtectedLog(c, tpm, ep.a, ep.b, keys, fixed, ep.slot, ep.current, ep.wrote, ep.written);
    PartOfSync(c, tpm, ep.a.disk, keys, fixed, a, ep.current, log, ep.written, kept);
    CurrentSlotSurvives(c, tpm, ep.a.disk, keys, fixed, a, ep.current, Kept(log, kept), ep.written);
    OtherSlot(c, tpm, ep.a.disk, keys, fixed, a, ep.current, Kept(log, kept), ep.written);
    assert 3 - a == 2 + ep.slot;
  }

  /** The load falls back to the slot that was current. */
  lemma FallBackKeepsReady(c: Codec, tpm: Tpm, keys: RootKeys, fixed: bool, ep: Episode, blobs: set<Blob>, full: Disk)
    requires Sized(c) && Synced(c, tpm, keys, ep, blobs) && Ends(c, tpm, keys, fixed, ep) && ep.ending.Crashed?
    requires ep.nextSlot == 1 - ep.slot
    requires Ready(c, tpm, keys, fixed, ep.a, 1 - ep.slot, ep.current, full)
    ensures Ready(c, tpm, keys, fixed, ep.next, ep.nextSlot, ep.nextRoot, NextFull(c, keys, ep, full))
  {
    hide SyncStep, SealsOpen, Due, Reached, Dynamic, Try, Load, FindRoot, Apply, Kept;
    AfterCrash(c, tpm, keys, fixed, ep, blobs, ep.ending.kept);
    if ep.wrote {
      DueLoads(c, tpm, ep.a, ep.b, keys, fixed, ep.slot, ep.current, ep.written, ep.groups, ep.leaves);
    }
    assert 3 - (1 - ep.slot) == 2 + ep.slot && 1 - (1 - ep.slot) == ep.slot;
  }

  /** The load moves on to the other slot. */
  lemma MoveOnKeepsReady(c: Codec, tpm: Tpm, keys: RootKeys, fixed: bool, ep: Episode, blobs: set<Blob>, full: Disk)
    requires Sized(c) && Synced(c, tpm, keys, ep, blobs) && Ends(c, tpm, keys, fixed, ep) && ep.ending.Crashed?
    requires ep.nextSlot == ep.slot
    requires Ready(c, tpm, keys, fixed, ep.a, 1 - ep.slot, ep.current, full)
    ensures Ready(c, tpm, keys, fixed, ep.next, ep.nextSlot, ep.nextRoot, NextFull(c, keys, ep, full))
  {
    hide SyncStep, SealsOpen, Due, Reached, Dynamic, Try, Load, FindRoot, Apply, Kept;
    AfterCrash(c, tpm, keys, fixed, ep, blobs, ep.ending.kept);
    LoadedTry(c, tpm, ep.next.disk, fixed);
    assert 1 - (1 - ep.slot) == ep.slot && 3 - ep.slot == 2 + (1 - ep.slot);
    FoundRoot(c, tpm, ep.next.disk, ep.slot);
    FoundRoot(c, tpm, ep.next.disk, 1 - ep.slot);
  }

  lemma FoundRoot(c: Codec, tpm: Tpm, disk: Disk, slot: nat)
    requires FindRoot(c, tpm, disk, slot).Some? && slot < 2
    ensures var found := FindRoot(c, tpm, disk, slot).value;
      UnsealRoot(c, tpm, Read(disk, slot)) == Some(found.keys)
        && c.openRoot(found.keys.tm, Read(disk, 2 + slot)) == Some(found.root)
  {
  }

  lemma CrashedSlot(c: Codec, tpm: Tpm, keys: RootKeys, fixed: bool, ep: Episode)
    requires Sized(c) && ep.slot < 2 && |ep.a.log| <= |ep.b.log| && Ends(c, tpm, keys, fixed, ep) && ep.ending.Crashed?
    ensures ep.nextSlot < 2 && Load(c, tpm, ep.next.disk, fixed) == Try(c, tpm, ep.next.disk, fixed, ep.nextSlot)
  {
    hide Load, Try, FindRoot, Reached;
    LoadedTry(c, tpm, ep.next.disk, fixed);
  }

  lemma AfterBlobs(c: Codec, tpm: Tpm, keys: RootKeys, ep: Episode, blobs: set<Blob>, kept: seq<bool>)
    requires Sized(c) && Synced(c, tpm, keys, ep, blobs) && |kept| == |ep.Log()|
    ensures Blobs(ep.After(kept)) <= blobs && Blobs(ep.b.disk) <= blobs
  {
    hide LogShape, SealsOpen, Due, Apply, Kept, Blobs;
    KeptFrom(ep.Log(), kept);
    BlobsApply(ep.a.disk, Kept(ep.Log(), kept));
    BlobsApply(ep.a.disk, ep.Log());
  }

  lemma FullBlobs(c: Codec, tpm: Tpm, keys: RootKeys, ep: Episode, blobs: set<Blob>, full: Disk)
    requires Sized(c) && Synced(c, tpm, keys, ep, blobs) && Ended(ep) && Blobs(full) <= blobs
    ensures Blobs(NextFull(c, keys, ep, full)) <= blobs
  {
    hide LogShape, SealsOpen, Due, Blobs;
    var log := ep.Log();
    AfterBlobs(c, tpm, keys, ep, blobs, if ep.ending.Crashed? then ep.ending.kept else seq(|log|, _ => true));
  }

  /** However an episode ends, the store is ready for the next one; and unless the counter was not
      incremented, what is in memory is what a load of the disk gives. */
  lemma EpisodeKeepsReady(c: Codec, tpm: Tpm, keys: RootKeys, fixed: bool, ep: Episode, blobs: set<Blob>, full: Disk)
    requires Sized(c) && Synced(c, tpm, keys, ep, blobs) && Ends(c, tpm, keys, fixed, ep)
    requires Ready(c, tpm, keys, fixed, ep.a, 1 - ep.slot, ep.current, full)
    ensures Ready(c, tpm, keys, fixed, ep.next, ep.nextSlot, ep.nextRoot, NextFull(c, keys, ep, full))
    ensures !ep.ending.NotIncremented? ==>
      Load(c, tpm, ep.next.disk, fixed) == Try(c, tpm, ep.next.disk, fixed, ep.nextSlot)
  {
    hide LogShape, SealsOpen, Due, Ready, Load, Try, Ends, NextFull, Apply, Blobs;
    match ep.ending
    case Complete => CompleteKeepsReady(c, tpm, keys, fixed, ep, blobs, full);
    case NotIncremented => NotIncrementedKeepsReady(c, tpm, keys, fixed, ep, blobs, full);
    case Crashed(_) =>
      CrashedSlot(c, tpm, keys, fixed, ep);
      if ep.nextSlot == ep.slot {
        MoveOnKeepsReady(c, tpm, keys, fixed, ep, blobs, full);
      } else {
        FallBackKeepsReady(c, tpm, keys, fixed, ep, blobs, full);
      }
  }

  /** How a run goes on.  The TPM may answer differently from a restart on, if what it loads then is protected. */
  ghost predicate Follows(c: Codec, keys: RootKeys, fixed: bool, ep: Episode, tpm: Tpm, full: Disk)
    requires Sized(c) && ep.slot < 2 && |ep.a.log| <= |ep.b.log|
  {
    if tpm == ep.tpm then Ends(c, tpm, keys, fixed, ep)
    else
      && ep.ending.Crashed? && Ended(ep)
      && Booted(c, tpm, keys, fixed, ep.next, ep.nextSlot, ep.nextRoot)
      && Ready(c, tpm, keys, fixed, ep.next, ep.nextSlot, ep.nextRoot, NextFull(c, keys, ep, full))
  }

  /** Episodes that follow one another. */
  ghost predicate Run(c: Codec, keys: RootKeys, fixed: bool, blobs: set<Blob>, now: Snapshot, slot: nat,
                      root: RootSector, full: Disk, run: seq<Episode>)
    requires Sized(c)
    decreases |run|
  {
    run != [] ==>
      && slot < 2 && run[0].slot == 1 - slot && run[0].a == now && run[0].current == root
      && Synced(c, run[0].tpm, keys, run[0], blobs)
      && (|run| > 1 ==>
          && Follows(c, keys, fixed, run[0], run[1].tpm, full)
          && Run(c, keys, fixed, blobs, run[0].next, run[0].nextSlot, run[0].nextRoot,
                 NextFull(c, keys, run[0], full), run[1..]))
  }

  /** The disk that had all the sectors of the newer root, if there is one in the other slot, before episode k. */
  ghost function FullAt(c: Codec, keys: RootKeys, run: seq<Episode>, k: nat, full: Disk): Disk
    requires k <= |run|
  {
    if k == 0 then full else FullAt(c, keys, run[1..], k - 1, NextFull(c, keys, run[0], full))
  }

  /** What a load finds after a crash in the given episode: the state from before, logically the state after
      its sync, or, if there is a newer root in the other slot, logically what that root loads with all of
      its sectors. */
  ghost predicate Survives(c: Codec, tpm: Tpm, keys: RootKeys, fixed: bool, ep: Episode, full: Disk, kept: seq<bool>)
    requires Sized(c) && ep.slot < 2 && |ep.a.log| <= |ep.b.log| && |kept| == |ep.b.log| - |ep.a.log|
  {
    var crashed := Load(c, tpm, ep.After(kept), fixed);
    || crashed == Try(c, tpm, ep.a.disk, fixed, 1 - ep.slot)
    || Same(crashed, Load(c, tpm, ep.b.disk, fixed))
    || (!Calm(c, ep.a.disk, keys, 1 - ep.slot, ep.current) && Same(crashed, Try(c, tpm, full, fixed, ep.slot)))
  }

  lemma EpisodeSurvives(c: Codec, tpm: Tpm, keys: RootKeys, fixed: bool, ep: Episode, blobs: set<Blob>, full: Disk,
                        kept: seq<bool>)
    requires Sized(c) && Synced(c, tpm, keys, ep, blobs) && NoCollision(c, keys.tm, blobs)
    requires Ready(c, tpm, keys, fixed, ep.a, 1 - ep.slot, ep.current, full) && Blobs(full) <= blobs
    requires |kept| == |ep.b.log| - |ep.a.log|
    ensures Survives(c, tpm, keys, fixed, ep, full, kept)
  {
    hide SyncStep, SealsOpen, Due, Protected, Interrupted, NoCollision, Load, Same, Try, Calm, Blobs, Apply, Kept,
         FindRoot;
    NoCollisionSubset(c, keys.tm, blobs, Blobs(ep.a.disk) + BlobsOf(ep.Log()));
    SyncOutcomes(c, tpm, ep.a, ep.b, keys, fixed, ep.slot, ep.current, ep.wrote, ep.written, ep.groups, ep.leaves,
                 kept);
    AfterBlobs(c, tpm, keys, ep, blobs, kept);
    assert 1 - (1 - ep.slot) == ep.slot;
    if Resumes(c, tpm, ep.a.disk, ep.After(kept), keys, fixed, 1 - ep.slot, ep.current) {
      ResumesInterrupted(c, tpm, ep.a.disk, ep.After(kept), keys, fixed, 1 - ep.slot, ep.current, full, blobs);
    }
  }

  /** Crash safety over a whole run of complete syncs, failed increments, aborts, crashes and restarts: a crash
      in the middle of any of its syncs leaves a disk that loads as before that sync, logically as after it,
      or as the newer root of an earlier sync that was interrupted. */
  lemma {:induction false} RunIsCrashSafe(c: Codec, keys: RootKeys, fixed: bool, blobs: set<Blob>, now: Snapshot,
                                          slot: nat, root: RootSector, full: Disk, run: seq<Episode>, k: nat,
                                          kept: seq<bool>)
    requires Sized(c) && NoCollision(c, keys.tm, blobs) && Blobs(full) <= blobs && k < |run|
    requires Ready(c, run[0].tpm, keys, fixed, now, slot, root, full)
    requires Run(c, keys, fixed, blobs, now, slot, root, full, run)
    requires |run[k].a.log| <= |run[k].b.log| && |kept| == |run[k].b.log| - |run[k].a.log|
    ensures run[k].slot < 2 && Survives(c, run[k].tpm, keys, fixed, run[k], FullAt(c, keys, run, k, full), kept)
    ensures k > 0 && !run[k - 1].ending.NotIncremented? ==>
      Load(c, run[k].tpm, run[k].a.disk, fixed) == Try(c, run[k].tpm, run[k].a.disk, fixed, 1 - run[k].slot)
    decreases k
  {
    hide Synced, Ends, Ready, NoCollision, Survives, NextFull, Load, Try, Blobs, Follows;
    var ep := run[0];
    if k == 0 {
      EpisodeSurvives(c, ep.tpm, keys, fixed, ep, blobs, full, kept);
    } else {
      FollowsReady(c, keys, fixed, ep, run[1].tpm, blobs, full);
      RunIsCrashSafe(c, keys, fixed, blobs, ep.next, ep.nextSlot, ep.nextRoot, NextFull(c, keys, ep, full), run[1..],
                     k - 1, kept);
    }
  }

  /** The next episode starts from a store that is ready, under its own TPM. */
  lemma FollowsReady(c: Codec, keys: RootKeys, fixed: bool, ep: Episode, tpm: Tpm, blobs: set<Blob>, full: Disk)
    requires Sized(c) && Synced(c, ep.tpm, keys, ep, blobs) && Follows(c, keys, fixed, ep, tpm, full)
    requires Ready(c, ep.tpm, keys, fixed, ep.a, 1 - ep.slot, ep.current, full) && Blobs(full) <= blobs
    ensures Ready(c, tpm, keys, fixed, ep.next, ep.nextSlot, ep.nextRoot, NextFull(c, keys, ep, full))
    ensures Blobs(NextFull(c, keys, ep, full)) <= blobs
    ensures !ep.ending.NotIncremented? ==>
      Load(c, tpm, ep.next.disk, fixed) == Try(c, tpm, ep.next.disk, fixed, ep.nextSlot)
  {
    hide LogShape, SealsOpen, Due, Ready, Load, Try, NextFull, Blobs, Apply, LoadRoot, ExactlyUsed, FindRoot, Reached;
    FullBlobs(c, ep.tpm, keys, ep, blobs, full);
    if tpm == ep.tpm {
      EpisodeKeepsReady(c, tpm, keys, fixed, ep, blobs, full);
    } else {
      LoadedTry(c, tpm, ep.next.disk, fixed);
    }
  }

  /** A new disk and its first sync: a crash leaves nothing that loads, or logically the state after the sync;
      and once it is complete, runs can start. */
  method FirstSync(c: Codec, dev: Device, seal: Sealer, fixed: bool, keys: RootKeys, counter: nat, g: Group,
                   depth: Depth, tpmOk: bool, ghost tpm: Tpm)
    returns (store: Store, result: Result, ghost wrote: bool, ghost root: RootSector)
    requires Faithful(c) && Sized(c) && dev.Valid() && counter < WORD && g.nrVtpms == 0 && g.pages == []
    requires Unused(c, tpm, dev.disk, keys)
    modifies dev, dev.inuse
    ensures fresh(store) && store.c == c && store.dev == dev && store.seal == seal && store.fixed == fixed
    ensures store.keys == keys
    ensures result == Skipped <==> g.nrSeals == 0
    ensures store.activeRoot < 2 && |old(dev.log)| <= |dev.log|
    ensures result != Skipped
            && Environment(c, tpm, seal, keys, old(Now(dev)), Now(dev), 1, wrote, root, store.groups) ==>
      && (forall kept: seq<bool> :: |kept| == |dev.log| - |old(dev.log)| ==>
            var crashed := Load(c, tpm, Apply(old(dev.disk), Kept(dev.log[|old(dev.log)|..], kept)), fixed);
            crashed.Rejected? || Same(crashed, Load(c, tpm, dev.disk, fixed)))
      && (result == Done && tpm.counterOk(root.area.counter)
          && !LoadRoot(c, tpm, dev.disk, keys, fixed, 1, root).OutOfBounds? ==>
          && store.Valid() && |store.groups| == 1 && store.activeRoot == 1 && root.area.sequence == store.sequence == 1
          && forall full: Disk :: Ready(c, tpm, keys, fixed, Now(dev), 1, root, full))
  {
    hide Protected, SyncStep, Published, ExactlyUsed, NoCollision, Accepts, SealsOpen, Calm, LoadRoot, Kept, Apply,
         Load, Same, BlobsOf, GroupWritten, BroughtUp, Tabled, Coherent, ListsSealed, Configured, Blobs, Ready,
         Device.Valid;
    ghost var a := Now(dev);
    store := NewDisk(c, dev, seal, fixed, keys, counter, g);
    ghost var leaves;
    result, wrote, root, leaves := store.SyncDisk(depth, tpmOk);
    ghost var b := Now(dev);
    if result != Skipped {
      SyncStepLog(c, keys.tm, a, b, 1, wrote, root);
      if Environment(c, tpm, seal, keys, a, b, 1, wrote, root, store.groups) {
        ghost var log := b.log[|a.log|..];
        OpensLists(c, tpm, seal, keys, store.groups, 1, log);
        forall kept: seq<bool> | |kept| == |log|
          ensures var crashed := Load(c, tpm, Apply(a.disk, Kept(log, kept)), fixed);
            crashed.Rejected? || Same(crashed, Load(c, tpm, b.disk, fixed))
        {
          FirstSyncIsCrashSafe(c, tpm, a, b, keys, fixed, 1, wrote, root, store.groups, leaves, kept);
        }
        if result == Done && tpm.counterOk(root.area.counter)
           && !LoadRoot(c, tpm, b.disk, keys, fixed, 1, root).OutOfBounds? {
          assert UnusedSlot(c, tpm, a.disk, keys, 0);
          SyncProtects(c, tpm, a, b, keys, fixed, 1, root, store.groups, leaves);
          CalmReady(c, tpm, keys, fixed, b, 1, root);
        }
      }
    }
  }

  lemma CalmReady(c: Codec, tpm: Tpm, keys: RootKeys, fixed: bool, now: Snapshot, slot: nat, root: RootSector)
    requires Sized(c) && slot < 2 && Protected(c, tpm, now, keys, fixed, slot, root)
    requires Calm(c, now.disk, keys, slot, root)
    ensures forall full: Disk :: Ready(c, tpm, keys, fixed, now, slot, root, full)
  {
    hide Protected, Calm;
  }
}
