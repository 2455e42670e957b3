/**
 The main results about the store: exact accounting, the write/load round trip, and crash safety of
 every sync in a run.
 */
module StoreTheorems {
  import opened Wrappers
  import opened DiskFormat
  import opened IndexTree
  import opened DiskLoad
  import opened LoadLaws
  import opened Crash
  import opened DiskIo
  import opened Stored
  import opened GroupWrite
  import opened Rollback
  import opened Reload
  import opened Sync

  /** Exact accounting: the dynamic sectors that carry a slot's bit after a sync are those that loading
      its root reaches, none lost and none leaked. */
  lemma AccountingExact(c: Codec, tpm: Tpm, disk: Disk, used: set<Sector>, keys: RootKeys, fixed: bool,
                        groups: seq<GroupHdr>, root: RootSector, leaves: Leaves, s: Sector)
    requires Sized(c) && Published(c, disk, used, keys.tm, groups, root, leaves) && ExactlyUsed(used, groups, leaves)
    requires forall i :: 0 <= i < |groups| ==> HonestFor(c, tpm, keys, disk, groups[i])
    ensures Reached(c, tpm, disk, keys, fixed, root, s) ==> Dynamic(s)
    ensures Dynamic(s) ==> (s in used <==> Reached(c, tpm, disk, keys, fixed, root, s))
  {
    hide Resolve, LoadGroups, Published, HonestFor, LoadedAs, Dynamic, AllHeld, Versions;
    PublishedRoot(c, disk, used, keys.tm, groups, root, leaves);
    var stored := StoredVersions(c, disk, used, keys.tm, groups);
    VersionLists(c, disk, used, keys.tm, groups, stored, s);
    PublishedLoads(c, tpm, disk, used, keys, fixed, groups, root, leaves, stored);
    var loaded := LoadGroups(c, tpm, disk, keys, fixed, leaves, |groups|).value;
    SameLists(c, tpm, keys, disk, fixed, stored, loaded, s);
    if s in leaves.inuse {
      RootHolds(c, disk, used, keys.tm, groups, root, leaves, s);
    } else if OnLists(groups, s) {
      var i :| 0 <= i < |groups| && s in groups[i].inuse;
      PublishedKept(c, disk, used, keys.tm, groups, root, leaves, i);
      GroupHolds(c, disk, used, keys.tm, groups[i], s);
    }
  }

  lemma PublishedKept(c: Codec, disk: Disk, used: set<Sector>, key: Key, groups: seq<GroupHdr>, root: RootSector,
                      leaves: Leaves, i: nat)
    requires Sized(c) && Published(c, disk, used, key, groups, root, leaves) && i < |groups|
    ensures HdrKept(c, disk, used, key, groups[i])
  {
    hide HdrKept, Listed;
  }

  lemma VersionLists(c: Codec, disk: Disk, used: set<Sector>, key: Key, groups: seq<GroupHdr>, stored: seq<GroupHdr>,
                     s: Sector)
    requires Sized(c) && Versions(c, disk, used, key, groups, stored)
    ensures |stored| == |groups| && (OnLists(groups, s) <==> OnLists(stored, s))
  {
    hide AllKept, Behind;
    forall i | 0 <= i < |groups| ensures groups[i].inuse == stored[i].inuse {
      assert Version(groups[i], stored[i]);
    }
  }

  lemma SameLists(c: Codec, tpm: Tpm, keys: RootKeys, disk: Disk, fixed: bool, groups: seq<GroupHdr>,
                  loaded: seq<GroupHdr>, s: Sector)
    requires |groups| == |loaded|
    requires forall i :: 0 <= i < |groups| ==> LoadedAs(c, tpm, keys, disk, fixed, groups[i], loaded[i])
    ensures OnLists(groups, s) <==> OnLists(loaded, s)
  {
    forall i | 0 <= i < |groups| ensures s in groups[i].inuse <==> s in loaded[i].inuse {
      assert LoadedAs(c, tpm, keys, disk, fixed, groups[i], loaded[i]);
      SameSectors(groups[i].inuse, loaded[i].inuse);
    }
  }

  /** Pages placed as the code is written are back in their places only if there is at most one. */
  lemma PlaceExact(pages: seq<Page>)
    requires forall k :: 0 <= k < |pages| ==> pages[k].vtpms != []
    ensures PagesView(Place(false, pages)) == PagesView(pages) <==> |pages| <= 1
  {
    if |pages| >= 2 {
      assert PagesView(Place(false, pages))[1].vtpms == [] != PagesView(pages)[1].vtpms;
    }
  }

  lemma PagesNotEmpty(g: Group, k: nat)
    requires Paged(g) && k < |g.pages|
    ensures MaskPages(g.pages)[k].vtpms != []
  {
    assert VTPMS_PER_SECTOR * k < g.nrVtpms;
  }

  /** A group as memory holds it, with only the flags that are stored, or as it comes back. */
  function Expected(fixed: bool, hdr: GroupHdr): (r: GroupHdr) {
    if hdr.v.None? then hdr else hdr.(v := Some(Restored(fixed, hdr.v.value)))
  }

  function ExpectedAll(fixed: bool, groups: seq<GroupHdr>): (r: seq<GroupHdr>)
    ensures |r| == |groups|
  {
    seq(|groups|, i requires 0 <= i < |groups| => Expected(fixed, groups[i]))
  }

  /** The TPM opens exactly the groups that are open in memory, with their keys. */
  ghost predicate SameOpening(c: Codec, tpm: Tpm, keys: RootKeys, disk: Disk, groups: seq<GroupHdr>) {
    forall i :: 0 <= i < |groups| ==>
      if groups[i].v.Some? then Opens(c, tpm, keys, disk, groups[i])
        else Answer(c, tpm, keys, disk, groups[i]) == Locked
  }

  lemma OpeningHonest(c: Codec, tpm: Tpm, disk: Disk, used: set<Sector>, keys: RootKeys, hdr: GroupHdr)
    requires Sized(c) && GroupKept(c, disk, used, keys.tm, hdr)
    requires if hdr.v.Some? then Opens(c, tpm, keys, disk, hdr) else Answer(c, tpm, keys, disk, hdr) == Locked
    ensures HonestFor(c, tpm, keys, disk, hdr)
  {
    hide Resolve, LoadPages, PagesKept, Paged, Held;
    var sector, leaves :| KeptAs(c, disk, used, keys.tm, hdr, sector, leaves);
  }

  /** The groups come back as they should. */
  lemma LoadedExpected(c: Codec, tpm: Tpm, disk: Disk, used: set<Sector>, keys: RootKeys, fixed: bool, hdr: GroupHdr,
                       loaded: GroupHdr)
    requires Sized(c) && GroupKept(c, disk, used, keys.tm, hdr) && LoadedAs(c, tpm, keys, disk, fixed, hdr, loaded)
    requires if hdr.v.Some? then Opens(c, tpm, keys, disk, hdr) else Answer(c, tpm, keys, disk, hdr) == Locked
    ensures View(loaded) == View(Expected(fixed, hdr)) && Reopened(loaded, hdr)
    ensures hdr.v.Some? ==> loaded.v.Some? && Paged(hdr.v.value)
    ensures View(loaded) == View(Expected(true, hdr)) <==> fixed || hdr.v.None? || |hdr.v.value.pages| <= 1
  {
    hide Resolve, LoadPages, PagesKept, Held, Place, PagesView, MaskPages;
    var sector, leaves :| KeptAs(c, disk, used, keys.tm, hdr, sector, leaves);
    if hdr.v.Some? {
      var g := hdr.v.value;
      forall k | 0 <= k < |MaskPages(g.pages)| ensures MaskPages(g.pages)[k].vtpms != [] {
        PagesNotEmpty(g, k);
      }
      PlaceExact(MaskPages(g.pages));
      assert Place(true, MaskPages(g.pages)) == MaskPages(g.pages) by { PlaceFixed(MaskPages(g.pages)); }
    }
  }

  lemma PlaceFixed(pages: seq<Page>)
    ensures Place(true, pages) == pages
  {
  }

  /** Round trip: loading a complete sync under a TPM that opens the same groups rebuilds the manager with
      each group as it was last written, vTPM flags masked, unless the rollback scan overruns its table,
      which happens exactly when an open group lies beyond the last one that signed.  With the pages
      placed as the code is written a load gives this exactly when no open group has more than one
      page. */
  lemma RoundTrip(c: Codec, tpm: Tpm, disk: Disk, used: set<Sector>, keys: RootKeys, fixed: bool, slot: nat,
                  groups: seq<GroupHdr>, root: RootSector, leaves: Leaves, stored: seq<GroupHdr>)
    requires Sized(c) && Published(c, disk, used, keys.tm, groups, root, leaves)
    requires Versions(c, disk, used, keys.tm, groups, stored)
    requires TabledUpTo(c, root.area, groups, root.macs, root.nrMacs, |groups|)
    requires |groups| > 0 && groups[0].v.Some? && tpm.counterOk(root.area.counter)
    requires SameOpening(c, tpm, keys, disk, groups)
    ensures var r := LoadRoot(c, tpm, disk, keys, fixed, slot, root);
      && !r.Rejected?
      && (r.Loaded? <==>
          forall i :: 0 < i < |groups| && groups[i].v.Some? ==> exists k :: i <= k < |groups| && Signs(groups[k]))
      && (r.Loaded? ==>
          && r.m.(groups := []) == Manager(keys, root.area.counter, root.area.sequence, slot, [])
          && SameGroups(r.m.groups, ExpectedAll(fixed, stored))
          && (SameGroups(r.m.groups, ExpectedAll(true, stored)) <==>
              fixed || forall i :: 0 <= i < |stored| && stored[i].v.Some? ==> |stored[i].v.value.pages| <= 1))
  {
    hide Resolve, LoadGroups, Scan, Published, TabledUpTo, View, Expected, Opens, LoadedAs, Answer, HonestFor, Reopened,
         AllHeld, GroupKept, Version;
    PublishedRoot(c, disk, used, keys.tm, groups, root, leaves);
    forall i | 0 <= i < |groups|
      ensures HonestFor(c, tpm, keys, disk, groups[i]) && (groups[i].v.Some? <==> stored[i].v.Some?)
      ensures if stored[i].v.Some? then Opens(c, tpm, keys, disk, stored[i])
        else Answer(c, tpm, keys, disk, stored[i]) == Locked
    {
      VersionOpens(c, tpm, keys, disk, groups[i], stored[i]);
      OpeningHonest(c, tpm, disk, used, keys, stored[i]);
    }
    PublishedLoads(c, tpm, disk, used, keys, fixed, groups, root, leaves, stored);
    var loaded := LoadGroups(c, tpm, disk, keys, fixed, leaves, |groups|).value;
    forall i | 0 <= i < |groups|
      ensures View(loaded[i]) == View(Expected(fixed, stored[i])) && Reopened(loaded[i], groups[i])
      ensures loaded[i].v.Some? <==> groups[i].v.Some?
      ensures View(loaded[i]) == View(Expected(true, stored[i]))
         <==> fixed || stored[i].v.None? || |stored[i].v.value.pages| <= 1
    {
      assert LoadedAs(c, tpm, keys, disk, fixed, stored[i], loaded[i]);
      LoadedExpected(c, tpm, disk, used, keys, fixed, stored[i], loaded[i]);
      VersionOpens(c, tpm, keys, disk, groups[i], stored[i]);
      ReopenedVersion(loaded[i], groups[i], stored[i]);
    }
    UnmodifiedFlagsNone(c, root, groups, loaded);
  }

  lemma ReopenedVersion(loaded: GroupHdr, hdr: GroupHdr, stored: GroupHdr)
    requires Reopened(loaded, stored) && Version(hdr, stored)
    ensures Reopened(loaded, hdr) && (loaded.v.Some? ==> stored.v.Some?)
  {
    hide Paged;
  }

  /** Slot a holds a root that loads, and the allocation table protects every sector it reaches. */
  ghost predicate Protected(c: Codec, tpm: Tpm, now: Snapshot, keys: RootKeys, fixed: bool, a: nat, root: RootSector)
    requires Sized(c)
  {
    && a < 2 && |now.used| == 2
    && Standing(c, tpm, now.disk, keys, fixed, a, root)
    && forall s: Sector :: Reached(c, tpm, now.disk, keys, fixed, root, s) ==> Dynamic(s) && s in now.used[a]
  }

  /** The TPM can open the seal lists that the sync writes. */
  ghost predicate SealsOpen(c: Codec, tpm: Tpm, keys: RootKeys, slot: nat, log: seq<Write>) {
    forall w :: w in log && w.sector == slot ==> UnsealRoot(c, tpm, w.blob) == Some(keys)
  }

  /** The TPM accepts what the sync has published. */
  ghost predicate Accepts(c: Codec, tpm: Tpm, keys: RootKeys, disk: Disk, slot: nat, groups: seq<GroupHdr>,
                          root: RootSector) {
    && UnsealRoot(c, tpm, Read(disk, slot)) == Some(keys)
    && tpm.counterOk(root.area.counter)
    && |groups| > 0 && Opens(c, tpm, keys, disk, groups[0])
    && forall i :: 0 <= i < |groups| ==> HonestFor(c, tpm, keys, disk, groups[i])
  }

  /** A sync of a protected store writes only where crash safety allows it. */
  lemma ProtectedLog(c: Codec, tpm: Tpm, a: Snapshot, b: Snapshot, keys: RootKeys, fixed: bool, slot: nat,
                     root: RootSector, wrote: bool, root': RootSector)
    requires Sized(c) && slot < 2 && Protected(c, tpm, a, keys, fixed, 1 - slot, root)
    requires SyncStep(c, keys.tm, a, b, slot, wrote, root') && SealsOpen(c, tpm, keys, slot, b.log[|a.log|..])
    ensures SyncLog(c, tpm, a.disk, keys, fixed, 1 - slot, root, b.log[|a.log|..], root')
    ensures forall s: Sector :: Reached(c, tpm, a.disk, keys, fixed, root, s) ==> s % 0x10_0000 >= FIRST_DYNAMIC_SECTOR
    ensures wrote <==> WritesRoot(1 - slot, b.log[|a.log|..])
  {
    hide Reached, Standing;
    var log := b.log[|a.log|..];
    assert 1 - (1 - slot) == slot && 3 - (1 - slot) == 2 + slot;
    forall w | w in log
      ensures || (w.sector == slot && UnsealRoot(c, tpm, w.blob) == Some(keys))
              || (w.sector == 2 + slot && c.openRoot(keys.tm, w.blob) == Some(root'))
              || (w.sector >= FIRST_DYNAMIC_SECTOR
                  && forall s: Sector :: Reached(c, tpm, a.disk, keys, fixed, root, s) ==> s % 0x10_0000 != w.sector)
    {
    }
  }

  /** The root sector of a complete sync. */
  lemma NewRoot(c: Codec, tpm: Tpm, a: Snapshot, b: Snapshot, keys: RootKeys, slot: nat, root': RootSector)
    requires SyncStep(c, keys.tm, a, b, slot, true, root') && UnsealRoot(c, tpm, Read(b.disk, slot)) == Some(keys)
    ensures FindRoot(c, tpm, b.disk, slot) == Some(Candidate(keys, root'))
    ensures Read(b.disk, 1 - slot) == Read(a.disk, 1 - slot) && Read(b.disk, 3 - slot) == Read(a.disk, 3 - slot)
  {
    hide Dynamic, Apply;
    var log := b.log[|a.log|..];
    ReadWritten(a.disk, log, 2 + slot);
    ReadApply(a.disk, log, 1 - slot);
    ReadApply(a.disk, log, 3 - slot);
    NoStaticWrites(c, keys.tm, slot, a.used[1 - slot], log, root');
  }

  lemma NoStaticWrites(c: Codec, key: Key, slot: nat, other: set<Sector>, log: seq<Write>, root: RootSector)
    requires slot < 2 && LogShape(c, key, slot, other, log, root)
    ensures forall w :: w in log ==> w.sector != 1 - slot && w.sector != 3 - slot
    ensures forall w :: w in log && w.sector == 2 + slot ==> c.openRoot(key, w.blob) == Some(root)
  {
  }

  lemma PublishedTry(c: Codec, tpm: Tpm, disk: Disk, used: set<Sector>, keys: RootKeys, fixed: bool, slot: nat,
                     groups: seq<GroupHdr>, root: RootSector, leaves: Leaves)
    requires Sized(c) && Published(c, disk, used, keys.tm, groups, root, leaves)
    requires Accepts(c, tpm, keys, disk, slot, groups, root)
    requires FindRoot(c, tpm, disk, slot) == Some(Candidate(keys, root))
    ensures !Try(c, tpm, disk, fixed, slot).Rejected?
  {
    hide LoadRoot, Published, HonestFor, FindRoot, Opens;
    PublishedAccepted(c, tpm, disk, used, keys, fixed, slot, groups, root, leaves);
  }

  /** The root that a sync has written: newer, published, and the TPM takes it unless it refuses its counter. */
  ghost predicate Due(c: Codec, tpm: Tpm, keys: RootKeys, b: Snapshot, slot: nat, root: RootSector, root': RootSector,
                      groups: seq<GroupHdr>, leaves: Leaves)
    requires Sized(c)
  {
    && slot < |b.used| && root'.area.sequence > root.area.sequence
    && Published(c, b.disk, b.used[slot], keys.tm, groups, root', leaves)
    && (Accepts(c, tpm, keys, b.disk, slot, groups, root') || !tpm.counterOk(root'.area.counter))
  }

  lemma DueLoads(c: Codec, tpm: Tpm, a: Snapshot, b: Snapshot, keys: RootKeys, fixed: bool, slot: nat, root: RootSector,
                 root': RootSector, groups: seq<GroupHdr>, leaves: Leaves)
    requires Sized(c) && SyncStep(c, keys.tm, a, b, slot, true, root')
    requires Due(c, tpm, keys, b, slot, root, root', groups, leaves)
    ensures root'.area.sequence > root.area.sequence
    ensures tpm.counterOk(root'.area.counter) ==>
      FindRoot(c, tpm, b.disk, slot) == Some(Candidate(keys, root')) && !Try(c, tpm, b.disk, fixed, slot).Rejected?
  {
    hide SyncStep, Published, Try, Accepts, FindRoot;
    if tpm.counterOk(root'.area.counter) {
      AcceptedRoot(c, tpm, a, b, keys, fixed, slot, root', groups, leaves);
    }
  }

  lemma ProtectedStep(c: Codec, tpm: Tpm, a: Snapshot, b: Snapshot, keys: RootKeys, fixed: bool, slot: nat,
                      root: RootSector, wrote: bool, root': RootSector)
    requires Sized(c) && slot < 2 && Protected(c, tpm, a, keys, fixed, 1 - slot, root)
    requires SyncStep(c, keys.tm, a, b, slot, wrote, root')
    ensures Standing(c, tpm, a.disk, keys, fixed, 1 - slot, root)
    ensures |a.log| <= |b.log| && b.disk == Apply(a.disk, b.log[|a.log|..])
  {
  }

  /** After a sync of a protected store, complete or aborted, whatever part of its writes the device keeps,
      loading yields the state before it, logically the state after it, or a newer root that was there
      before, given that no two of the blobs involved collide. */
  lemma SyncOutcomes(c: Codec, tpm: Tpm, a: Snapshot, b: Snapshot, keys: RootKeys, fixed: bool, slot: nat,
                     root: RootSector, wrote: bool, root': RootSector, groups: seq<GroupHdr>, leaves: Leaves,
                     kept: seq<bool>)
    requires Sized(c) && slot < 2 && Protected(c, tpm, a, keys, fixed, 1 - slot, root)
    requires SyncStep(c, keys.tm, a, b, slot, wrote, root') && SealsOpen(c, tpm, keys, slot, b.log[|a.log|..])
    requires wrote ==> Due(c, tpm, keys, b, slot, root, root', groups, leaves)
    requires NoCollision(c, keys.tm, Blobs(a.disk) + BlobsOf(b.log[|a.log|..]))
    requires |kept| == |b.log| - |a.log|
    ensures Recovers(c, tpm, a.disk, b.disk, Apply(a.disk, Kept(b.log[|a.log|..], kept)), keys, fixed, 1 - slot, root)
  {
    hide Due, NoCollision, Recovers, Reached, SyncLog, Try, Standing, SealsOpen, Apply, FindRoot, WritesRoot, Protected,
         SyncStep;
    ProtectedLog(c, tpm, a, b, keys, fixed, slot, root, wrote, root');
    ProtectedStep(c, tpm, a, b, keys, fixed, slot, root, wrote, root');
    if wrote {
      DueLoads(c, tpm, a, b, keys, fixed, slot, root, root', groups, leaves);
    }
    assert 1 - (1 - slot) == slot;
    assert Proper(c, tpm, a.disk, fixed, 1 - slot, root, b.log[|a.log|..], root');
    CrashOutcomes(c, tpm, a.disk, keys, fixed, 1 - slot, root, b.log[|a.log|..], root', kept);
  }

  /** Crash safety of a sync: with no newer root in the other slot, loading yields the state before it or
      logically the state after it. */
  lemma SyncIsCrashSafe(c: Codec, tpm: Tpm, a: Snapshot, b: Snapshot, keys: RootKeys, fixed: bool, slot: nat,
                        root: RootSector, wrote: bool, root': RootSector, groups: seq<GroupHdr>, leaves: Leaves,
                        kept: seq<bool>)
    requires Sized(c) && slot < 2 && Protected(c, tpm, a, keys, fixed, 1 - slot, root)
    requires Calm(c, a.disk, keys, 1 - slot, root)
    requires SyncStep(c, keys.tm, a, b, slot, wrote, root') && SealsOpen(c, tpm, keys, slot, b.log[|a.log|..])
    requires wrote ==> Due(c, tpm, keys, b, slot, root, root', groups, leaves)
    requires NoCollision(c, keys.tm, Blobs(a.disk) + BlobsOf(b.log[|a.log|..]))
    requires |kept| == |b.log| - |a.log|
    ensures var crashed := Load(c, tpm, Apply(a.disk, Kept(b.log[|a.log|..], kept)), fixed);
      || crashed == Load(c, tpm, a.disk, fixed)
      || Same(crashed, Load(c, tpm, b.disk, fixed))
  {
    hide LogShape, Due, NoCollision, Load, Same, Reached, Try, Standing, SealsOpen, Apply, FindRoot, Calm, SyncStep,
         Kept;
    SyncOutcomes(c, tpm, a, b, keys, fixed, slot, root, wrote, root', groups, leaves, kept);
    CalmRecovers(c, tpm, a.disk, b.disk, Apply(a.disk, Kept(b.log[|a.log|..], kept)), keys, fixed, 1 - slot, root);
  }

  /** A complete sync leaves its root protected, and calm if the other slot has no root or an older one. */
  lemma SyncProtects(c: Codec, tpm: Tpm, a: Snapshot, b: Snapshot, keys: RootKeys, fixed: bool, slot: nat,
                     root': RootSector, groups: seq<GroupHdr>, leaves: Leaves)
    requires Sized(c) && SyncStep(c, keys.tm, a, b, slot, true, root')
    requires UnsealRoot(c, tpm, Read(a.disk, 1 - slot)) in {None, Some(keys)}
    requires var other := c.openRoot(keys.tm, Read(a.disk, 3 - slot));
      other.None? || other.value.area.sequence < root'.area.sequence
    requires Published(c, b.disk, b.used[slot], keys.tm, groups, root', leaves)
    requires ExactlyUsed(b.used[slot], groups, leaves)
    requires Accepts(c, tpm, keys, b.disk, slot, groups, root')
    requires !LoadRoot(c, tpm, b.disk, keys, fixed, slot, root').OutOfBounds?
    ensures Protected(c, tpm, b, keys, fixed, slot, root') && Calm(c, b.disk, keys, slot, root')
  {
    hide LogShape, Published, ExactlyUsed, Reached, LoadRoot, HonestFor, Dynamic, Apply, Opens;
    NewRoot(c, tpm, a, b, keys, slot, root');
    PublishedTry(c, tpm, b.disk, b.used[slot], keys, fixed, slot, groups, root', leaves);
    forall s: Sector | Reached(c, tpm, b.disk, keys, fixed, root', s) ensures Dynamic(s) && s in b.used[slot] {
      AccountingExact(c, tpm, b.disk, b.used[slot], keys, fixed, groups, root', leaves, s);
    }
  }

  /** A complete sync leaves the store protected again, now by the other slot, and calm: every later sync is
      crash safe too. */
  lemma SyncKeepsProtected(c: Codec, tpm: Tpm, a: Snapshot, b: Snapshot, keys: RootKeys, fixed: bool, slot: nat,
                           root: RootSector, root': RootSector, groups: seq<GroupHdr>, leaves: Leaves)
    requires Sized(c) && slot < 2 && Protected(c, tpm, a, keys, fixed, 1 - slot, root)
    requires SyncStep(c, keys.tm, a, b, slot, true, root') && root'.area.sequence > root.area.sequence
    requires Published(c, b.disk, b.used[slot], keys.tm, groups, root', leaves)
    requires ExactlyUsed(b.used[slot], groups, leaves)
    requires Accepts(c, tpm, keys, b.disk, slot, groups, root')
    requires !LoadRoot(c, tpm, b.disk, keys, fixed, slot, root').OutOfBounds?
    ensures Protected(c, tpm, b, keys, fixed, slot, root') && Calm(c, b.disk, keys, slot, root')
  {
    hide SyncStep, Published, ExactlyUsed, Reached, LoadRoot, Accepts, Dynamic;
    assert 3 - slot == 2 + (1 - slot);
    SyncProtects(c, tpm, a, b, keys, fixed, slot, root', groups, leaves);
  }

  /** A disk on which the keys open no root, as a new one is. */
  ghost predicate Unused(c: Codec, tpm: Tpm, disk: Disk, keys: RootKeys) {
    UnusedSlot(c, tpm, disk, keys, 0) && UnusedSlot(c, tpm, disk, keys, 1)
  }

  ghost predicate UnusedSlot(c: Codec, tpm: Tpm, disk: Disk, keys: RootKeys, slot: nat)
    requires slot < 2
  {
    UnsealRoot(c, tpm, Read(disk, slot)) in {None, Some(keys)} && c.openRoot(keys.tm, Read(disk, 2 + slot)).None?
  }

  /** What the two slots hold after a part of the first sync. */
  lemma FirstSlots(c: Codec, tpm: Tpm, a: Snapshot, b: Snapshot, keys: RootKeys, slot: nat, wrote: bool,
                   root': RootSector, part: seq<Write>)
    requires SyncStep(c, keys.tm, a, b, slot, wrote, root') && SealsOpen(c, tpm, keys, slot, b.log[|a.log|..])
    requires Unused(c, tpm, a.disk, keys) && forall w :: w in part ==> w in b.log[|a.log|..]
    ensures FindRoot(c, tpm, Apply(a.disk, part), 1 - slot).None?
    ensures FindRoot(c, tpm, Apply(a.disk, part), slot) in {None, Some(Candidate(keys, root'))}
    ensures FindRoot(c, tpm, Apply(a.disk, part), slot).Some? ==> wrote
  {
    hide Apply, Dynamic;
    ReadApply(a.disk, part, slot);
    ReadApply(a.disk, part, 2 + slot);
    ReadApply(a.disk, part, 1 - slot);
    ReadApply(a.disk, part, 3 - slot);
    NoStaticWrites(c, keys.tm, slot, a.used[1 - slot], b.log[|a.log|..], root');
    assert UnusedSlot(c, tpm, a.disk, keys, slot) && UnusedSlot(c, tpm, a.disk, keys, 1 - slot);
    assert 2 + (1 - slot) == 3 - slot;
  }

  /** With one slot empty, the load is what the other one gives. */
  lemma LoadsOnly(c: Codec, tpm: Tpm, disk: Disk, fixed: bool, slot: nat)
    requires Sized(c) && slot < 2 && FindRoot(c, tpm, disk, 1 - slot).None?
    ensures Load(c, tpm, disk, fixed) == Try(c, tpm, disk, fixed, slot)
  {
    hide LoadRoot, FindRoot;
    assert Try(c, tpm, disk, fixed, 1 - slot).Rejected?;
    assert slot == 0 || slot == 1;
  }

  /** Crash safety of the first sync of a new disk: nothing loads, or logically the state after it. */
  lemma FirstSyncIsCrashSafe(c: Codec, tpm: Tpm, a: Snapshot, b: Snapshot, keys: RootKeys, fixed: bool, slot: nat,
                             wrote: bool, root': RootSector, groups: seq<GroupHdr>, leaves: Leaves, kept: seq<bool>)
    requires Sized(c) && SyncStep(c, keys.tm, a, b, slot, wrote, root')
    requires SealsOpen(c, tpm, keys, slot, b.log[|a.log|..])
    requires Unused(c, tpm, a.disk, keys) && NoCollision(c, keys.tm, Blobs(a.disk) + BlobsOf(b.log[|a.log|..]))
    requires wrote ==>
      && Published(c, b.disk, b.used[slot], keys.tm, groups, root', leaves)
      && (Accepts(c, tpm, keys, b.disk, slot, groups, root') || !tpm.counterOk(root'.area.counter))
    requires |kept| == |b.log| - |a.log|
    ensures var crashed := Load(c, tpm, Apply(a.disk, Kept(b.log[|a.log|..], kept)), fixed);
      crashed.Rejected? || Same(crashed, Load(c, tpm, b.disk, fixed))
  {
    hide LogShape, Published, Accepts, NoCollision, Load, Same, Try, FindRoot, SealsOpen, Apply, Kept, Unused, Dynamic;
    var log := b.log[|a.log|..];
    var part := Kept(log, kept);
    KeptFrom(log, kept);
    FirstSlots(c, tpm, a, b, keys, slot, wrote, root', part);
    FirstSlots(c, tpm, a, b, keys, slot, wrote, root', log);
    LoadsOnly(c, tpm, Apply(a.disk, part), fixed, slot);
    LoadsOnly(c, tpm, b.disk, fixed, slot);
    if !Try(c, tpm, Apply(a.disk, part), fixed, slot).Rejected? {
      TryFound(c, tpm, Apply(a.disk, part), fixed, slot);
      AcceptedRoot(c, tpm, a, b, keys, fixed, slot, root', groups, leaves);
      NewRootLoads(c, tpm, a.disk, keys, fixed, slot, log, part, root');
    }
  }

  lemma AcceptedRoot(c: Codec, tpm: Tpm, a: Snapshot, b: Snapshot, keys: RootKeys, fixed: bool, slot: nat,
                     root': RootSector, groups: seq<GroupHdr>, leaves: Leaves)
    requires Sized(c) && SyncStep(c, keys.tm, a, b, slot, true, root')
    requires Published(c, b.disk, b.used[slot], keys.tm, groups, root', leaves)
    requires Accepts(c, tpm, keys, b.disk, slot, groups, root')
    ensures FindRoot(c, tpm, b.disk, slot) == Some(Candidate(keys, root'))
    ensures !Try(c, tpm, b.disk, fixed, slot).Rejected?
  {
    hide LogShape, Published, Try, HonestFor, Opens, Apply, Dynamic, FindRoot;
    NewRoot(c, tpm, a, b, keys, slot, root');
    PublishedTry(c, tpm, b.disk, b.used[slot], keys, fixed, slot, groups, root', leaves);
  }

  /** Whether it completes or not, a sync leaves the slot it started from protected. */
  lemma SyncKeepsCurrent(c: Codec, tpm: Tpm, a: Snapshot, b: Snapshot, keys: RootKeys, fixed: bool, slot: nat,
                         root: RootSector, wrote: bool, root': RootSector)
    requires Sized(c) && slot < 2 && Protected(c, tpm, a, keys, fixed, 1 - slot, root)
    requires SyncStep(c, keys.tm, a, b, slot, wrote, root') && SealsOpen(c, tpm, keys, slot, b.log[|a.log|..])
    ensures Protected(c, tpm, b, keys, fixed, 1 - slot, root)
  {
    hide LogShape, Reached, SyncLog, Try, SealsOpen, Apply, Dynamic, FindRoot, WritesRoot;
    ProtectedLog(c, tpm, a, b, keys, fixed, slot, root, wrote, root');
    CurrentSlotSurvives(c, tpm, a.disk, keys, fixed, 1 - slot, root, b.log[|a.log|..], root');
    OtherSlot(c, tpm, a.disk, keys, fixed, 1 - slot, root, b.log[|a.log|..], root');
  }
}
