/**
 What a load accepts, said of the disk instead of the loader: which sectors must decode, which hashes and MACs
 they must meet, and what of them ends up in memory.
 */
module Authentic {
  import opened Wrappers
  import opened DiskFormat
  import opened IndexTree
  import opened DiskLoad
  import opened Rollback

  /* Pages. */

  /** The sector decodes and has the hash; with the group's key the page holds its first `size` vTPMs, numbered
      from base, and without it none. */
  ghost predicate PageShown(c: Codec, disk: Disk, key: Key, groupKey: Option<Key>, hash: Digest, loc: Sector,
                            size: nat, base: nat, page: Page)
    requires Sized(c) && size <= VTPMS_PER_SECTOR
  {
    var sector := c.openPage(key, Read(disk, loc));
    && sector.Some? && c.hashPage(sector.value) == hash == page.hash && page.loc == loc
    && if groupKey.None? then page.vtpms == []
       else
         && |page.vtpms| == size
         && forall i :: 0 <= i < size ==>
              && page.vtpms[i].uuid == sector.value.headers[i].uuid
              && page.vtpms[i].flags == sector.value.headers[i].flags
              && page.vtpms[i].data == c.unwrap(groupKey.value, sector.value.body)[i]
              && page.vtpms[i].index == base + i
  }

  lemma PageIff(c: Codec, disk: Disk, key: Key, groupKey: Option<Key>, hash: Digest, loc: Sector, size: nat,
                base: nat, page: Page)
    requires Sized(c) && size <= VTPMS_PER_SECTOR
    ensures LoadPage(c, disk, key, groupKey, hash, loc, size, base) == Some(page)
       <==> PageShown(c, disk, key, groupKey, hash, loc, size, base, page)
  {
    if PageShown(c, disk, key, groupKey, hash, loc, size, base, page) && groupKey.Some? {
      var sector := c.openPage(key, Read(disk, loc)).value;
      assert page.vtpms == Decode(c, groupKey.value, sector, size, base);
    }
  }

  lemma PageOnly(c: Codec, disk: Disk, key: Key, groupKey: Option<Key>, hash: Digest, loc: Sector, size: nat, base: nat)
    requires Sized(c) && size <= VTPMS_PER_SECTOR
    ensures forall page ::
      LoadPage(c, disk, key, groupKey, hash, loc, size, base) == Some(page)
      <==> PageShown(c, disk, key, groupKey, hash, loc, size, base, page)
  {
    hide LoadPage, PageShown;
    forall page ensures LoadPage(c, disk, key, groupKey, hash, loc, size, base) == Some(page)
                   <==> PageShown(c, disk, key, groupKey, hash, loc, size, base, page)
    {
      PageIff(c, disk, key, groupKey, hash, loc, size, base, page);
    }
  }

  /** Every page of the list, of full size but for the last one. */
  ghost predicate PagesShown(c: Codec, disk: Disk, key: Key, groupKey: Option<Key>, leaves: Leaves, nrVtpms: nat,
                             pages: seq<Page>)
    requires Sized(c) && |pages| <= |leaves.hashes| == |leaves.locs| == PagesFor(nrVtpms)
  {
    forall k :: 0 <= k < |pages| ==>
      PageShown(c, disk, key, groupKey, leaves.hashes[k], leaves.locs[k],
                PageSize(nrVtpms, VTPMS_PER_SECTOR * k), VTPMS_PER_SECTOR * k, pages[k])
  }

  lemma {:induction false} PagesIff(c: Codec, disk: Disk, key: Key, groupKey: Option<Key>, leaves: Leaves,
                                    nrVtpms: nat, pages: seq<Page>)
    requires Sized(c) && |pages| <= |leaves.hashes| == |leaves.locs| == PagesFor(nrVtpms)
    ensures LoadPages(c, disk, key, groupKey, leaves, nrVtpms, |pages|) == Some(pages)
       <==> PagesShown(c, disk, key, groupKey, leaves, nrVtpms, pages)
  {
    hide LoadPage, PageShown, PagesShown;
    PagesShownStep(c, disk, key, groupKey, leaves, nrVtpms, pages);
    if pages != [] {
      var k := |pages| - 1;
      PagesIff(c, disk, key, groupKey, leaves, nrVtpms, pages[..k]);
      PageIff(c, disk, key, groupKey, leaves.hashes[k], leaves.locs[k], PageSize(nrVtpms, VTPMS_PER_SECTOR * k),
              VTPMS_PER_SECTOR * k, pages[k]);
      assert pages == pages[..k] + [pages[k]];
    }
  }

  lemma PagesShownStep(c: Codec, disk: Disk, key: Key, groupKey: Option<Key>, leaves: Leaves, nrVtpms: nat,
                       pages: seq<Page>)
    requires Sized(c) && |pages| <= |leaves.hashes| == |leaves.locs| == PagesFor(nrVtpms)
    ensures PagesShown(c, disk, key, groupKey, leaves, nrVtpms, pages) <==>
      pages == [] ||
      var k := |pages| - 1;
      && PagesShown(c, disk, key, groupKey, leaves, nrVtpms, pages[..k])
      && PageShown(c, disk, key, groupKey, leaves.hashes[k], leaves.locs[k],
                   PageSize(nrVtpms, VTPMS_PER_SECTOR * k), VTPMS_PER_SECTOR * k, pages[k])
  {
    hide PageShown;
  }

  /* Groups. */

  /** The sector decodes and has the hash.  The TPM opens the group or leaves it locked; an open group is
      authenticated by its own key and rebuilt from the sector; all of its pages are shown. */
  ghost predicate GroupShown(c: Codec, tpm: Tpm, disk: Disk, keys: RootKeys, fixed: bool, hash: Digest, loc: Sector,
                             hdr: GroupHdr)
    requires Sized(c)
  {
    var sector := c.openGroup(keys.tm, Read(disk, loc));
    && sector.Some? && hdr.loc == loc && hdr.hash == hash
    && var area := sector.value.area;
       && c.hashGroup(area, sector.value.mac) == hash
       && Rebuilt(c, tpm.unsealGroup(keys.uuid, area.boot), area, sector.value.mac, hdr.v)
       && var leaves := Resolve(c, disk, keys.tm, PagesFor(area.nrVtpms), ENTRIES_PER_GROUP, area.hashes,
                                sector.value.locs);
          && leaves.Some? && hdr.inuse == leaves.value.inuse
          && PagesBelow(c, disk, keys.tm, leaves.value, area.nrVtpms, fixed, hdr.v)
  }

  /** The group apart from its pages. */
  ghost predicate Rebuilt(c: Codec, unsealed: Unseal, area: GroupArea, mac: Mac, v: Option<Group>) {
    match v
    case None => unsealed.Locked?
    case Some(g) =>
      && unsealed.Opened? && g.keys == unsealed.keys && g.nrSeals == unsealed.nrSeals
      && c.macGroup(g.keys.group, area) == mac
      && g.id == area.id && g.details == area.details && g.nrVtpms == area.nrVtpms && g.boot == area.boot && g.sealValid
  }

  ghost predicate PagesBelow(c: Codec, disk: Disk, key: Key, leaves: Leaves, nrVtpms: nat, fixed: bool,
                             v: Option<Group>)
    requires Sized(c) && |leaves.hashes| == |leaves.locs| == PagesFor(nrVtpms)
  {
    exists pages ::
      && |pages| == PagesFor(nrVtpms)
      && PagesShown(c, disk, key, if v.None? then None else Some(v.value.keys.group), leaves, nrVtpms, pages)
      && (v.Some? ==> v.value.pages == Place(fixed, pages))
  }

  lemma PagesBelowIff(c: Codec, disk: Disk, key: Key, leaves: Leaves, nrVtpms: nat, fixed: bool, v: Option<Group>)
    requires Sized(c) && |leaves.hashes| == |leaves.locs| == PagesFor(nrVtpms)
    ensures var groupKey := if v.None? then None else Some(v.value.keys.group);
      var pages := LoadPages(c, disk, key, groupKey, leaves, nrVtpms, PagesFor(nrVtpms));
      PagesBelow(c, disk, key, leaves, nrVtpms, fixed, v)
      <==> pages.Some? && (v.Some? ==> v.value.pages == Place(fixed, pages.value))
  {
    hide LoadPages, PagesShown, Place;
    var groupKey := if v.None? then None else Some(v.value.keys.group);
    var pages := LoadPages(c, disk, key, groupKey, leaves, nrVtpms, PagesFor(nrVtpms));
    if pages.Some? {
      PagesIff(c, disk, key, groupKey, leaves, nrVtpms, pages.value);
    }
    forall ps: seq<Page> |
      |ps| == PagesFor(nrVtpms) && PagesShown(c, disk, key, groupKey, leaves, nrVtpms, ps)
      ensures pages == Some(ps)
    {
      PagesIff(c, disk, key, groupKey, leaves, nrVtpms, ps);
    }
  }

  lemma GroupIff(c: Codec, tpm: Tpm, disk: Disk, keys: RootKeys, fixed: bool, hash: Digest, loc: Sector, hdr: GroupHdr)
    requires Sized(c)
    ensures LoadGroup(c, tpm, disk, keys, fixed, hash, loc) == Some(hdr)
       <==> GroupShown(c, tpm, disk, keys, fixed, hash, loc, hdr)
  {
    hide LoadPages, Place, Resolve, PagesBelow;
    var sector := c.openGroup(keys.tm, Read(disk, loc));
    if sector.Some? {
      var area := sector.value.area;
      var leaves :=
        Resolve(c, disk, keys.tm, PagesFor(area.nrVtpms), ENTRIES_PER_GROUP, area.hashes, sector.value.locs);
      if leaves.Some? {
        PagesBelowIff(c, disk, keys.tm, leaves.value, area.nrVtpms, fixed, hdr.v);
      }
    }
  }

  lemma GroupOnly(c: Codec, tpm: Tpm, disk: Disk, keys: RootKeys, fixed: bool, hash: Digest, loc: Sector)
    requires Sized(c)
    ensures forall hdr ::
      LoadGroup(c, tpm, disk, keys, fixed, hash, loc) == Some(hdr)
      <==> GroupShown(c, tpm, disk, keys, fixed, hash, loc, hdr)
  {
    hide LoadGroup, GroupShown;
    forall hdr ensures LoadGroup(c, tpm, disk, keys, fixed, hash, loc) == Some(hdr)
                  <==> GroupShown(c, tpm, disk, keys, fixed, hash, loc, hdr)
    {
      GroupIff(c, tpm, disk, keys, fixed, hash, loc, hdr);
    }
  }

  ghost predicate GroupsShown(c: Codec, tpm: Tpm, disk: Disk, keys: RootKeys, fixed: bool, leaves: Leaves,
                              groups: seq<GroupHdr>)
    requires Sized(c) && |groups| <= |leaves.hashes| == |leaves.locs|
  {
    forall k :: 0 <= k < |groups| ==>
      GroupShown(c, tpm, disk, keys, fixed, leaves.hashes[k], leaves.locs[k], groups[k])
  }

  lemma {:induction false} GroupsIff(c: Codec, tpm: Tpm, disk: Disk, keys: RootKeys, fixed: bool, leaves: Leaves,
                                     groups: seq<GroupHdr>)
    requires Sized(c) && |groups| <= |leaves.hashes| == |leaves.locs|
    ensures LoadGroups(c, tpm, disk, keys, fixed, leaves, |groups|) == Some(groups)
       <==> GroupsShown(c, tpm, disk, keys, fixed, leaves, groups)
  {
    hide LoadGroup, GroupShown;
    if groups != [] {
      var k := |groups| - 1;
      GroupsIff(c, tpm, disk, keys, fixed, leaves, groups[..k]);
      GroupIff(c, tpm, disk, keys, fixed, leaves.hashes[k], leaves.locs[k], groups[k]);
      assert groups == groups[..k] + [groups[k]];
    }
  }

  /* Roots. */

  /** The TPM accepts the root's counter, the groups below the root are shown, and group 0 is open. */
  ghost predicate Acceptable(c: Codec, tpm: Tpm, disk: Disk, keys: RootKeys, fixed: bool, root: RootSector,
                             groups: seq<GroupHdr>)
    requires Sized(c)
  {
    var n := root.area.nrGroups;
    var leaves := Resolve(c, disk, keys.tm, n, ENTRIES_PER_ROOT, root.area.hashes, root.locs);
    && tpm.counterOk(root.area.counter) && |groups| == n > 0 && root.nrMacs <= RB_MACS_PER_ROOT && leaves.Some?
    && GroupsShown(c, tpm, disk, keys, fixed, leaves.value, groups) && groups[0].v.Some?
  }

  /** What loading a root may answer. */
  ghost predicate Answers(c: Codec, tpm: Tpm, disk: Disk, keys: RootKeys, fixed: bool, slot: nat, root: RootSector,
                          r: Outcome)
    requires Sized(c)
  {
    match r
    case Rejected => forall groups :: !Acceptable(c, tpm, disk, keys, fixed, root, groups)
    case OutOfBounds =>
      exists groups ::
        && Acceptable(c, tpm, disk, keys, fixed, root, groups)
        && (Ordered(root) ==> exists i :: Overruns(root, groups, i))
    case Loaded(m) =>
      && m.keys == keys && m.counter == root.area.counter && m.sequence == root.area.sequence && m.activeRoot == slot
      && exists groups ::
           && Acceptable(c, tpm, disk, keys, fixed, root, groups) && |m.groups| == |groups|
           && (Ordered(root) ==>
                 && (forall i :: !Overruns(root, groups, i))
                 && forall i :: 0 <= i < |groups| ==> Judged(c, root, i, groups[i], m.groups[i]))
  }

  lemma AcceptableIs(c: Codec, tpm: Tpm, disk: Disk, keys: RootKeys, fixed: bool, root: RootSector,
                     groups: seq<GroupHdr>)
    requires Sized(c)
    ensures Acceptable(c, tpm, disk, keys, fixed, root, groups) <==>
      var n := root.area.nrGroups;
      var leaves := Resolve(c, disk, keys.tm, n, ENTRIES_PER_ROOT, root.area.hashes, root.locs);
      && tpm.counterOk(root.area.counter) && |groups| == n > 0 && root.nrMacs <= RB_MACS_PER_ROOT && leaves.Some?
      && LoadGroups(c, tpm, disk, keys, fixed, leaves.value, n) == Some(groups) && groups[0].v.Some?
  {
    hide Resolve, LoadGroups, GroupsShown;
    var n := root.area.nrGroups;
    var leaves := Resolve(c, disk, keys.tm, n, ENTRIES_PER_ROOT, root.area.hashes, root.locs);
    if leaves.Some? && |groups| == n {
      GroupsIff(c, tpm, disk, keys, fixed, leaves.value, groups);
    }
  }

  /** Loading a root gives such an answer, and from a table as the writer orders it there is no other. */
  lemma RootAnswers(c: Codec, tpm: Tpm, disk: Disk, keys: RootKeys, fixed: bool, slot: nat, root: RootSector)
    requires Sized(c)
    ensures Answers(c, tpm, disk, keys, fixed, slot, root, LoadRoot(c, tpm, disk, keys, fixed, slot, root))
  {
    hide Resolve, LoadGroups, Scan, Acceptable, Judged, Overruns, Ordered;
    forall groups ensures Acceptable(c, tpm, disk, keys, fixed, root, groups) ==>
      !LoadRoot(c, tpm, disk, keys, fixed, slot, root).Rejected?
    {
      AcceptableIs(c, tpm, disk, keys, fixed, root, groups);
    }
    var r := LoadRoot(c, tpm, disk, keys, fixed, slot, root);
    if !r.Rejected? {
      var leaves :=
        Resolve(c, disk, keys.tm, root.area.nrGroups, ENTRIES_PER_ROOT, root.area.hashes, root.locs).value;
      var groups := LoadGroups(c, tpm, disk, keys, fixed, leaves, root.area.nrGroups).value;
      AcceptableIs(c, tpm, disk, keys, fixed, root, groups);
      if Ordered(root) {
        ScanExact(c, root, groups);
        if r.Loaded? {
          ScanJudges(c, root, groups);
        }
      }
    }
  }

  lemma OneAnswer(c: Codec, tpm: Tpm, disk: Disk, keys: RootKeys, fixed: bool, slot: nat, root: RootSector,
                  a: Outcome, b: Outcome)
    requires Sized(c) && Ordered(root)
    requires Answers(c, tpm, disk, keys, fixed, slot, root, a) && Answers(c, tpm, disk, keys, fixed, slot, root, b)
    ensures a == b
  {
    hide Acceptable, Judged, Overruns, Ordered;
    forall x, y | Acceptable(c, tpm, disk, keys, fixed, root, x) && Acceptable(c, tpm, disk, keys, fixed, root, y)
      ensures x == y
    {
      AcceptableIs(c, tpm, disk, keys, fixed, root, x);
      AcceptableIs(c, tpm, disk, keys, fixed, root, y);
    }
    if a.Loaded? && b.Loaded? {
      var groups :| Acceptable(c, tpm, disk, keys, fixed, root, groups) && |a.m.groups| == |groups|
                    && forall i :: 0 <= i < |groups| ==> Judged(c, root, i, groups[i], a.m.groups[i]);
      forall i | 0 <= i < |groups| ensures a.m.groups[i] == b.m.groups[i] {
        OneJudgement(c, root, i, groups[i], a.m.groups[i], b.m.groups[i]);
      }
      assert a.m.groups == b.m.groups;
    }
  }

  lemma OneJudgement(c: Codec, root: RootSector, i: nat, was: GroupHdr, a: GroupHdr, b: GroupHdr)
    requires Judged(c, root, i, was, a) && Judged(c, root, i, was, b)
    ensures a == b
  {
    hide Vouched;
  }
}
