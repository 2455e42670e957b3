/**
 Marking the unchanged sectors before a sync allocates new ones.
 */
module Populate {
  import opened Wrappers
  import opened DiskFormat
  import opened IndexTree
  import opened DiskLoad
  import opened DiskIo
  import opened Stored
  import opened GroupWrite

  /** Any dynamic sector. */
  function AllDynamic(): (r: set<Sector>)
    ensures forall s :: s in r <==> Dynamic(s)
  {
    set s: Sector | s < DISK_MAX_SECTOR && Dynamic(s)
  }

  /** The sectors that the header's clean parts occupy. */
  ghost predicate Occupies(hdr: GroupHdr, s: Sector) {
    if hdr.loc != 0 then s == hdr.loc || s in hdr.inuse
    else hdr.v.Some? && exists k :: 0 <= k < |hdr.v.value.pages| && hdr.v.value.pages[k].loc == s != 0
  }

  ghost predicate OccupiedBy(groups: seq<GroupHdr>, n: nat, s: Sector)
    requires n <= |groups|
  {
    exists i :: 0 <= i < n && Occupies(groups[i], s)
  }

  /** Everything a group occupies is dynamic. */
  lemma OccupiesDynamic(c: Codec, disk: Disk, used: set<Sector>, key: Key, hdr: GroupHdr, s: Sector)
    requires Sized(c) && GroupReady(c, disk, used, key, hdr) && Occupies(hdr, s)
    ensures Dynamic(s) && s in used
  {
    hide Resolve, LoadPages, Matches, PagesKept, Behind;
    if hdr.loc != 0 {
      var v :| KeptVersion(c, disk, used, key, hdr, v);
      var sector, leaves :| KeptAs(c, disk, used, key, hdr.(v := v), sector, leaves);
      SameSectors(hdr.inuse, leaves.inuse);
    } else {
      var k :| 0 <= k < |hdr.v.value.pages| && hdr.v.value.pages[k].loc == s != 0;
      assert PageKept(c, disk, used, key, hdr.v.value.keys.group, hdr.v.value.pages[k], VTPMS_PER_SECTOR * k);
    }
  }

  /** What is kept somewhere is kept in any set that holds the sectors it occupies. */
  lemma ReadyIn(c: Codec, disk: Disk, used: set<Sector>, used': set<Sector>, key: Key, hdr: GroupHdr)
    requires Sized(c) && GroupReady(c, disk, used, key, hdr)
    requires forall s :: Occupies(hdr, s) ==> s in used'
    ensures GroupReady(c, disk, used', key, hdr)
  {
    hide Paged;
    if hdr.loc != 0 {
      hide GroupKept, Behind;
      var v :| KeptVersion(c, disk, used, key, hdr, v);
      forall s | Occupies(hdr.(v := v), s) ensures s in used' {
        assert Occupies(hdr, s);
      }
      KeptIn(c, disk, used, used', key, hdr.(v := v));
      assert KeptVersion(c, disk, used', key, hdr, v);
    } else if hdr.v.Some? {
      var g := hdr.v.value;
      forall i | 0 <= i < |g.pages| && g.pages[i].loc != 0
        ensures PageKept(c, disk, used', key, g.keys.group, g.pages[i], VTPMS_PER_SECTOR * i)
      {
        assert Occupies(hdr, g.pages[i].loc);
      }
    }
  }

  lemma KeptIn(c: Codec, disk: Disk, used: set<Sector>, used': set<Sector>, key: Key, hdr: GroupHdr)
    requires Sized(c) && GroupKept(c, disk, used, key, hdr)
    requires forall s :: Occupies(hdr, s) ==> s in used'
    ensures GroupKept(c, disk, used', key, hdr)
  {
    hide Resolve, LoadPages, Matches, Paged;
    var sector, leaves :| KeptAs(c, disk, used, key, hdr, sector, leaves);
    SameSectors(hdr.inuse, leaves.inuse);
    forall s | s in leaves.inuse ensures s in used' {
      assert Occupies(hdr, s);
    }
    if hdr.v.Some? {
      PagesKeptIn(c, disk, used, used', key, hdr, sector, leaves);
    }
    assert Occupies(hdr, hdr.loc);
    assert KeptAs(c, disk, used', key, hdr, sector, leaves);
  }

  lemma PagesKeptIn(c: Codec, disk: Disk, used: set<Sector>, used': set<Sector>, key: Key, hdr: GroupHdr,
                    sector: GroupSector, leaves: Leaves)
    requires Sized(c) && KeptAs(c, disk, used, key, hdr, sector, leaves) && hdr.v.Some?
    requires forall s :: s in leaves.inuse ==> s in used'
    ensures PagesKept(c, disk, used', key, hdr.v.value.keys.group, hdr.v.value.pages, 0, |hdr.v.value.pages|)
  {
    hide Resolve, Paged, LoadPage, LoadPages;
    var g := hdr.v.value;
    LocsInUse(c, disk, key, PagesFor(sector.area.nrVtpms), ENTRIES_PER_GROUP, sector.area.hashes, sector.locs);
    forall i | 0 <= i < |g.pages|
      ensures PageKept(c, disk, used', key, g.keys.group, g.pages[i], VTPMS_PER_SECTOR * i)
    {
      assert Locs(g.pages)[i] in leaves.locs;
    }
  }

  /** disk_populate_used_group. */
  method PopulateGroup(dev: Device, hdr: GroupHdr, slot: nat) returns (ok: bool)
    requires dev.Valid() && slot < 2
    requires forall s :: Occupies(hdr, s) ==> Dynamic(s)
    modifies dev`used, dev.inuse
    ensures dev.Valid() && dev.used[1 - slot] == old(dev.used)[1 - slot]
    ensures ok <==> hdr.loc != 0 || hdr.v.Some?
    ensures forall s :: s in dev.used[slot] <==> s in old(dev.used)[slot] || Occupies(hdr, s)
  {
    ghost var before := dev.used[slot];
    if hdr.loc != 0 {
      assert Occupies(hdr, hdr.loc);
      dev.SetUsed(hdr.loc, slot);
      for i := 0 to |hdr.inuse|
        invariant dev.Valid() && dev.used[1 - slot] == old(dev.used)[1 - slot]
        invariant forall s :: s in dev.used[slot] <==> s in before || s == hdr.loc || s in hdr.inuse[..i]
      {
        assert Occupies(hdr, hdr.inuse[i]);
        dev.SetUsed(hdr.inuse[i], slot);
        assert hdr.inuse[..i + 1] == hdr.inuse[..i] + [hdr.inuse[i]];
      }
      assert hdr.inuse[..|hdr.inuse|] == hdr.inuse;
      return true;
    }
    if hdr.v.None? {
      return false;
    }
    var pages := hdr.v.value.pages;
    for i := 0 to |pages|
      invariant dev.Valid() && dev.used[1 - slot] == old(dev.used)[1 - slot]
      invariant forall s :: s in dev.used[slot] <==>
        s in before || exists k :: 0 <= k < i && pages[k].loc == s != 0
    {
      if pages[i].loc != 0 {
        assert Occupies(hdr, pages[i].loc);
        dev.SetUsed(pages[i].loc, slot);
      }
    }
    return true;
  }

  /** disk_flush_slot, then disk_populate_used_mgr: afterwards the slot holds exactly the sectors of
      the unchanged parts. */
  method PopulateAll(dev: Device, groups: seq<GroupHdr>, slot: nat) returns (ok: bool)
    requires dev.Valid() && slot < 2
    requires forall i, s :: 0 <= i < |groups| && Occupies(groups[i], s) ==> Dynamic(s)
    modifies dev`used, dev.inuse
    ensures dev.Valid() && dev.used[1 - slot] == old(dev.used)[1 - slot]
    ensures ok <==> forall i :: 0 <= i < |groups| ==> groups[i].loc != 0 || groups[i].v.Some?
    ensures ok ==> forall s :: Dynamic(s) ==> (s in dev.used[slot] <==> OccupiedBy(groups, |groups|, s))
  {
    hide Occupies;
    dev.FlushSlot(slot);
    for i := 0 to |groups|
      invariant dev.Valid() && dev.used[1 - slot] == old(dev.used)[1 - slot]
      invariant forall j :: 0 <= j < i ==> groups[j].loc != 0 || groups[j].v.Some?
      invariant forall s :: Dynamic(s) ==> (s in dev.used[slot] <==> OccupiedBy(groups, i, s))
    {
      ghost var before := dev.used[slot];
      var done := PopulateGroup(dev, groups[i], slot);
      if !done {
        return false;
      }
      forall s | Dynamic(s) ensures s in dev.used[slot] <==> OccupiedBy(groups, i + 1, s) {
        OccupiedNext(groups, i, s);
      }
    }
    return true;
  }

  lemma OccupiedNext(groups: seq<GroupHdr>, i: nat, s: Sector)
    requires i < |groups|
    ensures OccupiedBy(groups, i + 1, s) <==> OccupiedBy(groups, i, s) || Occupies(groups[i], s)
  {
    hide Occupies;
  }
}
