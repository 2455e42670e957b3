/**
 Loading what has been written: a published root loads, and yields what memory held.
 */
module Reload {
  import opened Wrappers
  import opened DiskFormat
  import opened IndexTree
  import opened DiskLoad
  import opened DiskIo
  import opened Stored
  import opened GroupWrite

  /** The pages as the disk keeps them. */
  function MaskPages(pages: seq<Page>): (r: seq<Page>)
    ensures |r| == |pages|
  {
    seq(|pages|, i requires 0 <= i < |pages| => pages[i].(vtpms := Masked(pages[i].vtpms)))
  }

  /** An open group as a load brings it back. */
  function Restored(fixed: bool, g: Group): (r: Group) {
    g.(pages := Place(fixed, MaskPages(g.pages)))
  }

  /** Whether a page verifies does not depend on the group's key. */
  lemma {:induction false} PagesVerify(c: Codec, disk: Disk, key: Key, groupKey: Option<Key>, leaves: Leaves,
                                       nrVtpms: nat, k: nat)
    requires Sized(c) && k <= |leaves.hashes| == |leaves.locs| == PagesFor(nrVtpms)
    ensures LoadPages(c, disk, key, groupKey, leaves, nrVtpms, k).Some?
       <==> LoadPages(c, disk, key, None, leaves, nrVtpms, k).Some?
  {
    hide Decode;
    if k > 0 {
      PagesVerify(c, disk, key, groupKey, leaves, nrVtpms, k - 1);
    }
  }

  /** A kept group's pages load as memory holds them, up to the flags that are not stored. */
  lemma {:induction false} KeptPagesLoad(c: Codec, disk: Disk, used: set<Sector>, key: Key, g: Group,
                                         leaves: Leaves, k: nat)
    requires Sized(c) && Paged(g) && k <= |g.pages|
    requires leaves.hashes == Hashes(g.pages) && leaves.locs == Locs(g.pages)
    requires PagesKept(c, disk, used, key, g.keys.group, g.pages, 0, |g.pages|)
    ensures LoadPages(c, disk, key, Some(g.keys.group), leaves, g.nrVtpms, k) == Some(MaskPages(g.pages)[..k])
  {
    hide Decode, PageOk, Dynamic, Masked;
    if k > 0 {
      KeptPagesLoad(c, disk, used, key, g, leaves, k - 1);
      assert PageKept(c, disk, used, key, g.keys.group, g.pages[k - 1], VTPMS_PER_SECTOR * (k - 1));
      hide LoadPage;
      assert MaskPages(g.pages)[..k] == MaskPages(g.pages)[..k - 1] + [MaskPages(g.pages)[k - 1]];
    }
  }

  /** The TPM either refuses a group's seals or yields the key that the group's MAC was made with. */
  ghost predicate Honest(c: Codec, tpm: Tpm, uuid: Blob, sector: GroupSector) {
    match tpm.unsealGroup(uuid, sector.area.boot)
    case Opened(k, _) => c.macGroup(k.group, sector.area) == sector.mac
    case Locked => true
    case Broken => false
  }

  /** What the TPM answers for the seals on the group's sector. */
  ghost function Answer(c: Codec, tpm: Tpm, keys: RootKeys, disk: Disk, hdr: GroupHdr): (r: Unseal) {
    var sector := c.openGroup(keys.tm, Read(disk, hdr.loc));
    if sector.None? then Broken else tpm.unsealGroup(keys.uuid, sector.value.area.boot)
  }

  /** The header that loading a kept group yields. */
  ghost predicate LoadedAs(c: Codec, tpm: Tpm, keys: RootKeys, disk: Disk, fixed: bool, hdr: GroupHdr,
                           loaded: GroupHdr) {
    && loaded.loc == hdr.loc && loaded.hash == hdr.hash && multiset(loaded.inuse) == multiset(hdr.inuse)
    && (Answer(c, tpm, keys, disk, hdr).Locked? ==> loaded.v == None)
    && (hdr.v.Some? && Answer(c, tpm, keys, disk, hdr) == Opened(hdr.v.value.keys, hdr.v.value.nrSeals) ==>
        loaded.v == Some(Restored(fixed, hdr.v.value)))
  }

  lemma KeptGroupLoads(c: Codec, tpm: Tpm, disk: Disk, used: set<Sector>, keys: RootKeys, fixed: bool, hdr: GroupHdr)
    requires Sized(c) && GroupKept(c, disk, used, keys.tm, hdr)
    requires c.openGroup(keys.tm, Read(disk, hdr.loc)).Some? ==>
      Honest(c, tpm, keys.uuid, c.openGroup(keys.tm, Read(disk, hdr.loc)).value)
    ensures var r := LoadGroup(c, tpm, disk, keys, fixed, hdr.hash, hdr.loc);
      r.Some? && LoadedAs(c, tpm, keys, disk, fixed, hdr, r.value)
  {
    hide LoadPages, Resolve, PagesKept, Paged, Held, Dynamic, Place, MaskPages;
    var sector, leaves :| KeptAs(c, disk, used, keys.tm, hdr, sector, leaves);
    var n := PagesFor(sector.area.nrVtpms);
    var unsealed := tpm.unsealGroup(keys.uuid, sector.area.boot);
    var groupKey := if unsealed.Opened? then Some(unsealed.keys.group) else None;
    PagesVerify(c, disk, keys.tm, groupKey, leaves, sector.area.nrVtpms, n);
    if hdr.v.Some? {
      var g := hdr.v.value;
      SamePages(g, n);
      KeptPagesLoad(c, disk, used, keys.tm, g, leaves, n);
      PagesVerify(c, disk, keys.tm, Some(g.keys.group), leaves, g.nrVtpms, n);
      assert MaskPages(g.pages)[..n] == MaskPages(g.pages);
    }
  }

  lemma SamePages(g: Group, n: nat)
    requires Paged(g) && n == PagesFor(g.nrVtpms)
    ensures |g.pages| == n
  {
  }

  ghost predicate AllKept(c: Codec, disk: Disk, used: set<Sector>, key: Key, groups: seq<GroupHdr>)
    requires Sized(c)
  {
    forall i :: 0 <= i < |groups| ==> GroupKept(c, disk, used, key, groups[i])
  }

  lemma {:induction false} KeptGroupsLoad(c: Codec, tpm: Tpm, disk: Disk, used: set<Sector>, keys: RootKeys,
                                          fixed: bool, groups: seq<GroupHdr>, leaves: Leaves, k: nat)
    requires Sized(c) && k <= |groups| && AllKept(c, disk, used, keys.tm, groups)
    requires leaves.hashes == HdrHashes(groups) && leaves.locs == HdrLocs(groups)
    requires forall i :: 0 <= i < |groups| ==> HonestFor(c, tpm, keys, disk, groups[i])
    ensures var r := LoadGroups(c, tpm, disk, keys, fixed, leaves, k);
      r.Some? && forall i :: 0 <= i < k ==> LoadedAs(c, tpm, keys, disk, fixed, groups[i], r.value[i])
  {
    hide LoadGroup, GroupKept, LoadedAs;
    if k > 0 {
      KeptGroupsLoad(c, tpm, disk, used, keys, fixed, groups, leaves, k - 1);
      assert HonestFor(c, tpm, keys, disk, groups[k - 1]);
      KeptGroupLoads(c, tpm, disk, used, keys, fixed, groups[k - 1]);
    }
  }

  ghost predicate HonestFor(c: Codec, tpm: Tpm, keys: RootKeys, disk: Disk, hdr: GroupHdr) {
    var sector := c.openGroup(keys.tm, Read(disk, hdr.loc));
    sector.Some? ==> Honest(c, tpm, keys.uuid, sector.value)
  }

  ghost predicate AllHeld(c: Codec, disk: Disk, used: set<Sector>, key: Key, groups: seq<GroupHdr>)
    requires Sized(c)
  {
    forall i :: 0 <= i < |groups| ==> HdrKept(c, disk, used, key, groups[i])
  }

  /** The root describes the groups in memory, a version of each of which is kept. */
  ghost predicate Published(c: Codec, disk: Disk, used: set<Sector>, key: Key, groups: seq<GroupHdr>,
                            root: RootSector, leaves: Leaves)
    requires Sized(c)
  {
    && AllHeld(c, disk, used, key, groups)
    && Listed(c, disk, used, key, HdrHashes(groups), HdrLocs(groups), 0, |groups|, root.area.hashes, root.locs, leaves)
    && root.area.nrGroups == |groups|
    && root.nrMacs <= RB_MACS_PER_ROOT
  }

  /** stored is hdr with the group as it was last written. */
  ghost predicate Version(hdr: GroupHdr, stored: GroupHdr) {
    && stored == hdr.(v := stored.v)
    && (hdr.v.Some? <==> stored.v.Some?)
    && (hdr.v.Some? ==> Behind(stored.v.value, hdr.v.value))
  }

  /** The versions of the groups that the disk keeps. */
  ghost predicate Versions(c: Codec, disk: Disk, used: set<Sector>, key: Key, groups: seq<GroupHdr>,
                           stored: seq<GroupHdr>)
    requires Sized(c)
  {
    && |stored| == |groups| && AllKept(c, disk, used, key, stored)
    && forall i :: 0 <= i < |groups| ==> Version(groups[i], stored[i])
  }

  lemma {:induction false} StoredVersions(c: Codec, disk: Disk, used: set<Sector>, key: Key, groups: seq<GroupHdr>)
    returns (stored: seq<GroupHdr>)
    requires Sized(c) && AllHeld(c, disk, used, key, groups)
    ensures Versions(c, disk, used, key, groups, stored)
    ensures forall i :: 0 <= i < |groups| && GroupKept(c, disk, used, key, groups[i]) ==> stored[i] == groups[i]
  {
    hide GroupKept, Behind;
    if groups == [] {
      return [];
    }
    var n := |groups| - 1;
    var rest := StoredVersions(c, disk, used, key, groups[..n]);
    var last := groups[n];
    if GroupKept(c, disk, used, key, last) {
      KeptIsVersion(c, disk, used, key, last);
      return rest + [last];
    }
    assert HdrKept(c, disk, used, key, last);
    var v :| KeptVersion(c, disk, used, key, last, v);
    stored := rest + [last.(v := v)];
  }

  lemma PublishedLoads(c: Codec, tpm: Tpm, disk: Disk, used: set<Sector>, keys: RootKeys, fixed: bool,
                       groups: seq<GroupHdr>, root: RootSector, leaves: Leaves, stored: seq<GroupHdr>)
    requires Sized(c) && Published(c, disk, used, keys.tm, groups, root, leaves)
    requires Versions(c, disk, used, keys.tm, groups, stored)
    requires forall i :: 0 <= i < |groups| ==> HonestFor(c, tpm, keys, disk, groups[i])
    ensures Resolve(c, disk, keys.tm, |groups|, ENTRIES_PER_ROOT, root.area.hashes, root.locs) == Some(leaves)
    ensures var r := LoadGroups(c, tpm, disk, keys, fixed, leaves, |groups|);
      r.Some? && forall i :: 0 <= i < |groups| ==> LoadedAs(c, tpm, keys, disk, fixed, stored[i], r.value[i])
  {
    forall i | 0 <= i < |groups|
      ensures HonestFor(c, tpm, keys, disk, stored[i]) && stored[i].loc == groups[i].loc
      ensures stored[i].hash == groups[i].hash
    {
      assert HonestFor(c, tpm, keys, disk, groups[i]) && Version(groups[i], stored[i]);
    }
    hide Resolve, AllHeld, AllKept, HonestFor, LoadedAs, LoadGroups, Version;
    assert HdrHashes(groups)[0..0 + |groups|] == HdrHashes(stored)
      && HdrLocs(groups)[0..0 + |groups|] == HdrLocs(stored);
    KeptGroupsLoad(c, tpm, disk, used, keys, fixed, stored, leaves, |stored|);
  }

  /** A published root whose first group opens is never rejected. */
  lemma PublishedAccepted(c: Codec, tpm: Tpm, disk: Disk, used: set<Sector>, keys: RootKeys, fixed: bool, slot: nat,
                          groups: seq<GroupHdr>, root: RootSector, leaves: Leaves)
    requires Sized(c) && Published(c, disk, used, keys.tm, groups, root, leaves) && |groups| > 0
    requires forall i :: 0 <= i < |groups| ==> HonestFor(c, tpm, keys, disk, groups[i])
    requires tpm.counterOk(root.area.counter) && Opens(c, tpm, keys, disk, groups[0])
    ensures !LoadRoot(c, tpm, disk, keys, fixed, slot, root).Rejected?
  {
    hide Resolve, LoadGroups, Published, HonestFor, Scan, AllHeld, AllKept, Opens, Version;
    PublishedRoot(c, disk, used, keys.tm, groups, root, leaves);
    var stored := StoredVersions(c, disk, used, keys.tm, groups);
    PublishedLoads(c, tpm, disk, used, keys, fixed, groups, root, leaves, stored);
    var loaded := LoadGroups(c, tpm, disk, keys, fixed, leaves, |groups|).value;
    VersionOpens(c, tpm, keys, disk, groups[0], stored[0]);
    assert LoadedAs(c, tpm, keys, disk, fixed, stored[0], loaded[0]);
  }

  lemma PublishedRoot(c: Codec, disk: Disk, used: set<Sector>, key: Key, groups: seq<GroupHdr>, root: RootSector,
                      leaves: Leaves)
    requires Sized(c) && Published(c, disk, used, key, groups, root, leaves)
    ensures root.area.nrGroups == |groups| && root.nrMacs <= RB_MACS_PER_ROOT
    ensures AllHeld(c, disk, used, key, groups)
  {
  }

  /** The TPM opens the group with the keys that memory holds. */
  ghost predicate Opens(c: Codec, tpm: Tpm, keys: RootKeys, disk: Disk, hdr: GroupHdr) {
    hdr.v.Some? && Answer(c, tpm, keys, disk, hdr) == Opened(hdr.v.value.keys, hdr.v.value.nrSeals)
  }

  lemma VersionOpens(c: Codec, tpm: Tpm, keys: RootKeys, disk: Disk, hdr: GroupHdr, stored: GroupHdr)
    requires Version(hdr, stored)
    ensures Opens(c, tpm, keys, disk, stored) <==> Opens(c, tpm, keys, disk, hdr)
    ensures Opens(c, tpm, keys, disk, stored) ==>
      stored.v.Some? && Answer(c, tpm, keys, disk, stored) == Opened(stored.v.value.keys, stored.v.value.nrSeals)
    ensures Answer(c, tpm, keys, disk, stored) == Answer(c, tpm, keys, disk, hdr)
    ensures HonestFor(c, tpm, keys, disk, stored) <==> HonestFor(c, tpm, keys, disk, hdr)
    ensures stored.v.Some? <==> hdr.v.Some?
    ensures stored.v.Some? ==>
      && stored.v.value.keys == hdr.v.value.keys && stored.v.value.details == hdr.v.value.details
  {
    hide Paged;
  }
}
