/**
 Starting from a disk that the manager has written: the memory that loading rebuilds is in sync with the
 disk, and the allocation table protects what it was loaded from, so that commands and syncs can go on.
 */
module Restart {
  import opened Wrappers
  import opened Bytes
  import opened DiskFormat
  import opened IndexTree
  import opened DiskLoad
  import opened LoadLaws
  import opened Authentic
  import opened DiskIo
  import opened Stored
  import opened Populate
  import opened Rollback
  import opened Reload
  import opened Sync
  import opened StoreTheorems
  import opened GroupRead

  /** The pages land in their places: always if the page pointer advances, else only a single one. */
  ghost predicate Placeable(fixed: bool, hdr: GroupHdr) {
    fixed || hdr.v.None? || |hdr.v.value.pages| <= 1
  }

  lemma MaskTwice(vtpms: seq<Vtpm>)
    ensures Masked(Masked(vtpms)) == Masked(vtpms)
  {
  }

  lemma MaskedPageKept(c: Codec, disk: Disk, used: set<Sector>, key: Key, groupKey: Key, page: Page, base: nat)
    requires Sized(c) && PageKept(c, disk, used, key, groupKey, page, base)
    ensures PageKept(c, disk, used, key, groupKey, page.(vtpms := Masked(page.vtpms)), base)
  {
    MaskTwice(page.vtpms);
    hide LoadPage, Dynamic;
  }

  /** A group of several pages, placed as the code is written, is out of order. */
  lemma MisplacedNotPaged(g: Group)
    requires Paged(g) && |g.pages| > 1
    ensures !Paged(Restored(false, g))
  {
    var g' := Restored(false, g);
    assert g'.pages[1] == EMPTY_PAGE;
    assert PageSize(g.nrVtpms, VTPMS_PER_SECTOR * 1) > 0;
  }

  lemma MaskedPagesKept(c: Codec, disk: Disk, used: set<Sector>, key: Key, g: Group)
    requires Sized(c) && Paged(g) && PagesKept(c, disk, used, key, g.keys.group, g.pages, 0, |g.pages|)
    ensures var pages := MaskPages(g.pages);
      && Paged(g.(pages := pages)) && PagesKept(c, disk, used, key, g.keys.group, pages, 0, |pages|)
      && Hashes(pages) == Hashes(g.pages) && Locs(pages) == Locs(g.pages)
  {
    hide PageKept;
    var pages := MaskPages(g.pages);
    forall i | 0 <= i < |pages|
      ensures PageKept(c, disk, used, key, g.keys.group, pages[i], VTPMS_PER_SECTOR * i)
    {
      MaskedPageKept(c, disk, used, key, g.keys.group, g.pages[i], VTPMS_PER_SECTOR * i);
    }
  }

  /** What comes back from a kept group is kept exactly if its pages land in their places. */
  lemma LoadedKept(c: Codec, tpm: Tpm, disk: Disk, used: set<Sector>, keys: RootKeys, fixed: bool, stored: GroupHdr,
                   loaded: GroupHdr)
    requires Sized(c) && GroupKept(c, disk, used, keys.tm, stored)
    requires LoadedAs(c, tpm, keys, disk, fixed, stored, loaded)
    requires if stored.v.Some? then Opens(c, tpm, keys, disk, stored) else Answer(c, tpm, keys, disk, stored) == Locked
    ensures GroupKept(c, disk, used, keys.tm, loaded) <==> Placeable(fixed, stored)
  {
    hide Resolve, LoadPages, LoadPage, Held, Dynamic, Answer;
    var sector, leaves :| KeptAs(c, disk, used, keys.tm, stored, sector, leaves);
    if !Placeable(fixed, stored) {
      hide Place, MaskPages, PagesKept;
      MisplacedNotPaged(stored.v.value);
      return;
    }
    if stored.v.Some? {
      var g := stored.v.value;
      var g' := Restored(fixed, g);
      assert g'.pages == MaskPages(g.pages);
      MaskedPagesKept(c, disk, used, keys.tm, g);
      hide Place, MaskPages, PagesKept, Paged, Hashes, Locs;
    }
    assert KeptAs(c, disk, used, keys.tm, loaded, sector, leaves);
  }

  /** A group that a load of a complete sync yields is in sync with the disk exactly if its pages land in
      their places. */
  lemma LoadedInSync(c: Codec, tpm: Tpm, disk: Disk, used: set<Sector>, keys: RootKeys, fixed: bool, slot: nat,
                     groups: seq<GroupHdr>, root: RootSector, leaves: Leaves, stored: seq<GroupHdr>)
    requires Sized(c) && Published(c, disk, used, keys.tm, groups, root, leaves)
    requires Versions(c, disk, used, keys.tm, groups, stored)
    requires TabledUpTo(c, root.area, groups, root.macs, root.nrMacs, |groups|)
    requires SameOpening(c, tpm, keys, disk, groups)
    ensures var r := LoadRoot(c, tpm, disk, keys, fixed, slot, root);
      r.Loaded? ==>
        && |r.m.groups| == |stored|
        && forall i :: 0 <= i < |r.m.groups| ==>
          && (InSync(c, disk, keys.tm, r.m.groups[i]) <==> Placeable(fixed, stored[i]))
          && (Placeable(fixed, stored[i]) ==> Coherent(c, disk, keys.tm, r.m.groups[i]))
  {
    hide Resolve, LoadGroups, Scan, Published, TabledUpTo, Opens, LoadedAs, Answer, HonestFor, Reopened, AllHeld,
         GroupKept, Version, Coherent, Placeable;
    PublishedRoot(c, disk, used, keys.tm, groups, root, leaves);
    forall i | 0 <= i < |groups|
      ensures HonestFor(c, tpm, keys, disk, groups[i])
      ensures if stored[i].v.Some? then Opens(c, tpm, keys, disk, stored[i])
        else Answer(c, tpm, keys, disk, stored[i]) == Locked
    {
      VersionOpens(c, tpm, keys, disk, groups[i], stored[i]);
      OpeningHonest(c, tpm, disk, used, keys, stored[i]);
    }
    PublishedLoads(c, tpm, disk, used, keys, fixed, groups, root, leaves, stored);
    var loaded := LoadGroups(c, tpm, disk, keys, fixed, leaves, |groups|).value;
    forall i | 0 <= i < |groups|
      ensures Reopened(loaded[i], groups[i])
      ensures InSync(c, disk, keys.tm, loaded[i]) <==> Placeable(fixed, stored[i])
      ensures Placeable(fixed, stored[i]) ==> Coherent(c, disk, keys.tm, loaded[i])
    {
      assert LoadedAs(c, tpm, keys, disk, fixed, stored[i], loaded[i]);
      LoadedExpected(c, tpm, disk, used, keys, fixed, stored[i], loaded[i]);
      ReopenedVersion(loaded[i], groups[i], stored[i]);
      KeptAnywhere(c, disk, used, keys.tm, stored[i]);
      LoadedKept(c, tpm, disk, AllDynamic(), keys, fixed, stored[i], loaded[i]);
      if Placeable(fixed, stored[i]) {
        InSyncCoherent(c, disk, keys.tm, loaded[i]);
      }
    }
    UnmodifiedFlagsNone(c, root, groups, loaded);
  }

  lemma InSyncCoherent(c: Codec, disk: Disk, key: Key, hdr: GroupHdr)
    requires Sized(c) && InSync(c, disk, key, hdr)
    ensures Coherent(c, disk, key, hdr)
  {
    hide GroupKept, HdrKept, Occupies;
    KeptIsVersion(c, disk, AllDynamic(), key, hdr);
    KeptOccupies(c, disk, AllDynamic(), key, hdr);
  }

  /** A new device around the disk, loaded.  If the other seal list opens to the same keys or not at all and
      the disk lists only sectors of the table, the root that was loaded is protected. */
  method Boot(c: Codec, tpm: Tpm, disk: Disk, fixed: bool) returns (dev: Device, r: Outcome)
    requires Sized(c)
    ensures fresh(dev) && fresh(dev.inuse) && dev.Valid() && dev.disk == disk && dev.log == []
    ensures r == Load(c, tpm, disk, fixed)
    ensures r.Loaded? ==>
      && r.m.activeRoot < 2 && FindRoot(c, tpm, disk, r.m.activeRoot).Some?
      && var root := FindRoot(c, tpm, disk, r.m.activeRoot).value.root;
         UnsealRoot(c, tpm, Read(disk, 1 - r.m.activeRoot)) in {None, Some(r.m.keys)}
         && (forall s: Sector :: Reached(c, tpm, disk, r.m.keys, fixed, root, s) ==> Dynamic(s))
         ==> Protected(c, tpm, Now(dev), r.m.keys, fixed, r.m.activeRoot, root)
             && forall s: Sector :: s in dev.used[r.m.activeRoot] <==> Reached(c, tpm, disk, r.m.keys, fixed, root, s)
  {
    hide Load, FindRoot, Reached, Try, Answers, UnsealRoot;
    dev := new Device(disk);
    r := LoadDisk(c, tpm, dev, fixed);
    if r.Loaded? {
      LoadedTry(c, tpm, disk, fixed);
    }
  }

  /** vtpm_new_disk: one group, open and without vTPMs, nothing written yet. */
  method NewDisk(c: Codec, dev: Device, seal: Sealer, fixed: bool, keys: RootKeys, counter: nat, g: Group)
    returns (store: Store)
    requires Faithful(c) && Sized(c) && dev.Valid() && counter < WORD && g.nrVtpms == 0 && g.pages == []
    ensures fresh(store) && store.Valid() && store.c == c && store.dev == dev
    ensures store.seal == seal && store.fixed == fixed
    ensures store.groups == [GroupHdr(0, Zeros(32), [], Some(g))] && store.keys == keys
    ensures store.sealsValid == [false, false]
    ensures store.activeRoot == 0 && store.sequence == 0 && store.counter == counter
  {
    var hdr := GroupHdr(0, Zeros(32), [], Some(g));
    assert Coherent(c, dev.disk, keys.tm, hdr);
    store := new Store(c, dev, seal, fixed, Manager(keys, counter, 0, 0, [hdr]), [false, false]);
  }
}
