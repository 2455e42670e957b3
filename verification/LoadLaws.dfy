/**
 What a load depends on: nothing outside the sectors it reaches (framing), and of those only what
 their parents hash (Merkle determinism).
 */
module LoadLaws {
  import opened Wrappers
  import opened DiskFormat
  import opened IndexTree
  import opened DiskLoad

  /* Memory contents up to where they are stored. */

  function PagesView(pages: seq<Page>): (r: seq<Page>)
    ensures |r| == |pages|
  {
    seq(|pages|, i requires 0 <= i < |pages| => pages[i].(loc := 0))
  }

  function View(hdr: GroupHdr): (r: GroupHdr) {
    GroupHdr(0, hdr.hash, [],
             if hdr.v.None? then None else Some(hdr.v.value.(pages := PagesView(hdr.v.value.pages))))
  }

  ghost predicate SameGroups(a: seq<GroupHdr>, b: seq<GroupHdr>) {
    |a| == |b| && forall i :: 0 <= i < |a| ==> View(a[i]) == View(b[i])
  }

  /** The same logical state: everything but sector locations. */
  ghost predicate Same(a: Outcome, b: Outcome) {
    match (a, b)
    case (Loaded(m), Loaded(n)) => m.(groups := []) == n.(groups := []) && SameGroups(m.groups, n.groups)
    case (Rejected, Rejected) => true
    case (OutOfBounds, OutOfBounds) => true
    case _ => false
  }

  /* Merkle determinism. */

  lemma PageDetermined(c: Codec, a: Disk, b: Disk, key: Key, blobs: set<Blob>, groupKey: Option<Key>,
                       hash: Digest, locA: Sector, locB: Sector, size: nat, base: nat)
    requires Sized(c) && size <= VTPMS_PER_SECTOR
    requires Blobs(a) <= blobs && Blobs(b) <= blobs && NoCollision(c, key, blobs)
    requires LoadPage(c, a, key, groupKey, hash, locA, size, base).Some?
    requires LoadPage(c, b, key, groupKey, hash, locB, size, base).Some?
    ensures LoadPage(c, a, key, groupKey, hash, locA, size, base).value.(loc := 0)
         == LoadPage(c, b, key, groupKey, hash, locB, size, base).value.(loc := 0)
  {
    ReadIsBlob(a, locA);
    ReadIsBlob(b, locB);
  }

  lemma {:induction false} PagesDetermined(c: Codec, a: Disk, b: Disk, key: Key, blobs: set<Blob>,
                                           groupKey: Option<Key>, la: Leaves, lb: Leaves, nrVtpms: nat, k: nat)
    requires Sized(c) && la.hashes == lb.hashes
    requires k <= |la.hashes| == |la.locs| == |lb.locs| == PagesFor(nrVtpms)
    requires Blobs(a) <= blobs && Blobs(b) <= blobs && NoCollision(c, key, blobs)
    requires LoadPages(c, a, key, groupKey, la, nrVtpms, k).Some?
    requires LoadPages(c, b, key, groupKey, lb, nrVtpms, k).Some?
    ensures PagesView(LoadPages(c, a, key, groupKey, la, nrVtpms, k).value)
         == PagesView(LoadPages(c, b, key, groupKey, lb, nrVtpms, k).value)
  {
    hide NoCollision, LoadPage;
    if k > 0 {
      PagesDetermined(c, a, b, key, blobs, groupKey, la, lb, nrVtpms, k - 1);
      var base := VTPMS_PER_SECTOR * (k - 1);
      PageDetermined(c, a, b, key, blobs, groupKey, la.hashes[k - 1], la.locs[k - 1], lb.locs[k - 1],
                     PageSize(nrVtpms, base), base);
      var pa := LoadPages(c, a, key, groupKey, la, nrVtpms, k - 1).value;
      var pb := LoadPages(c, b, key, groupKey, lb, nrVtpms, k - 1).value;
      forall i | 0 <= i < k - 1 ensures pa[i].(loc := 0) == pb[i].(loc := 0) {
        assert PagesView(pa)[i] == PagesView(pb)[i];
      }
    }
  }

  lemma PlaceSame(fixed: bool, a: seq<Page>, b: seq<Page>)
    requires PagesView(a) == PagesView(b)
    ensures PagesView(Place(fixed, a)) == PagesView(Place(fixed, b))
  {
    assert |a| == |PagesView(a)| == |b|;
    forall i | 0 <= i < |a| ensures a[i].(loc := 0) == b[i].(loc := 0) {
      assert PagesView(a)[i] == PagesView(b)[i];
    }
  }

  /** A group's hash determines everything that loading the group reads. */
  lemma GroupDetermined(c: Codec, tpm: Tpm, a: Disk, b: Disk, keys: RootKeys, fixed: bool, blobs: set<Blob>,
                        hash: Digest, locA: Sector, locB: Sector)
    requires Sized(c)
    requires Blobs(a) <= blobs && Blobs(b) <= blobs && NoCollision(c, keys.tm, blobs)
    requires LoadGroup(c, tpm, a, keys, fixed, hash, locA).Some?
    requires LoadGroup(c, tpm, b, keys, fixed, hash, locB).Some?
    ensures View(LoadGroup(c, tpm, a, keys, fixed, hash, locA).value)
         == View(LoadGroup(c, tpm, b, keys, fixed, hash, locB).value)
  {
    hide Resolve, LoadPages, Place, NoCollision, PagesView;
    var ga := c.openGroup(keys.tm, Read(a, locA)).value;
    var gb := c.openGroup(keys.tm, Read(b, locB)).value;
    SectorDetermined(c, keys.tm, blobs, a, b, locA, locB);
    var area := ga.area;
    var n := PagesFor(area.nrVtpms);
    var la := Resolve(c, a, keys.tm, n, ENTRIES_PER_GROUP, area.hashes, ga.locs).value;
    var lb := Resolve(c, b, keys.tm, n, ENTRIES_PER_GROUP, area.hashes, gb.locs).value;
    ResolveDetermined(c, a, b, keys.tm, blobs, n, ENTRIES_PER_GROUP, area.hashes, ga.locs, gb.locs);
    var unsealed := tpm.unsealGroup(keys.uuid, area.boot);
    var groupKey := if unsealed.Opened? then Some(unsealed.keys.group) else None;
    PagesDetermined(c, a, b, keys.tm, blobs, groupKey, la, lb, area.nrVtpms, n);
    PlaceSame(fixed, LoadPages(c, a, keys.tm, groupKey, la, area.nrVtpms, n).value,
                     LoadPages(c, b, keys.tm, groupKey, lb, area.nrVtpms, n).value);
  }

  lemma SectorDetermined(c: Codec, key: Key, blobs: set<Blob>, a: Disk, b: Disk, locA: Sector, locB: Sector)
    requires Blobs(a) <= blobs && Blobs(b) <= blobs && NoCollision(c, key, blobs)
    requires c.openGroup(key, Read(a, locA)).Some? && c.openGroup(key, Read(b, locB)).Some?
    requires var ga, gb := c.openGroup(key, Read(a, locA)).value, c.openGroup(key, Read(b, locB)).value;
      c.hashGroup(ga.area, ga.mac) == c.hashGroup(gb.area, gb.mac)
    ensures var ga, gb := c.openGroup(key, Read(a, locA)).value, c.openGroup(key, Read(b, locB)).value;
      ga.area == gb.area && ga.mac == gb.mac
  {
    ReadIsBlob(a, locA);
    ReadIsBlob(b, locB);
  }

  lemma {:induction false} GroupsDetermined(c: Codec, tpm: Tpm, a: Disk, b: Disk, keys: RootKeys, fixed: bool,
                                            blobs: set<Blob>, la: Leaves, lb: Leaves, k: nat)
    requires Sized(c) && la.hashes == lb.hashes
    requires k <= |la.hashes| == |la.locs| == |lb.locs|
    requires Blobs(a) <= blobs && Blobs(b) <= blobs && NoCollision(c, keys.tm, blobs)
    requires LoadGroups(c, tpm, a, keys, fixed, la, k).Some?
    requires LoadGroups(c, tpm, b, keys, fixed, lb, k).Some?
    ensures SameGroups(LoadGroups(c, tpm, a, keys, fixed, la, k).value,
                       LoadGroups(c, tpm, b, keys, fixed, lb, k).value)
  {
    hide NoCollision, LoadGroup, View;
    if k > 0 {
      GroupsDetermined(c, tpm, a, b, keys, fixed, blobs, la, lb, k - 1);
      GroupDetermined(c, tpm, a, b, keys, fixed, blobs, la.hashes[k - 1], la.locs[k - 1], lb.locs[k - 1]);
    }
  }

  /** The rollback scan sees only the logical state. */
  lemma {:induction false} ScanSame(c: Codec, ra: RootSector, rb: RootSector, a: seq<GroupHdr>,
                                    b: seq<GroupHdr>, i: nat, j: nat)
    requires ra.area == rb.area && ra.nrMacs == rb.nrMacs && ra.macs == rb.macs
    requires SameGroups(a, b) && i <= |a| && j <= RB_MACS_PER_ROOT
    ensures var sa, sb := Scan(c, ra, a, i, j), Scan(c, rb, b, i, j);
      sa.Some? == sb.Some? && (sa.Some? ==> SameGroups(sa.value, sb.value))
    decreases |a| - i, RB_MACS_PER_ROOT - j
  {
    hide View;
    if i < |a| {
      ViewFields(a[i], b[i]);
      if a[i].v.None? {
        ScanSame(c, ra, rb, a, b, i + 1, j);
      } else if j < RB_MACS_PER_ROOT {
        if ra.macs[j].id < i {
          ScanSame(c, ra, rb, a, b, i, j + 1);
        } else if j >= ra.nrMacs || ra.macs[j].id != i {
          ScanSame(c, ra, rb, a[i := FlagRollback(a[i])], b[i := FlagRollback(b[i])], i + 1, j);
        } else if ra.macs[j].mac != c.macRoot(a[i].v.value.keys.rollback, ra.area) {
          ScanSame(c, ra, rb, a[i := FlagRollback(a[i])], b[i := FlagRollback(b[i])], i + 1, j + 1);
        } else {
          ScanSame(c, ra, rb, a, b, i + 1, j + 1);
        }
      }
    }
  }

  lemma ViewFields(a: GroupHdr, b: GroupHdr)
    requires View(a) == View(b)
    ensures a.v.Some? == b.v.Some?
    ensures a.v.Some? ==> a.v.value.keys == b.v.value.keys && View(FlagRollback(a)) == View(FlagRollback(b))
  {
  }

  /** Two disks with the same root contents, rollback MACs included, load the same logical state, flags
      included, if both of them verify.  AreaDetermined does without the MACs. */
  lemma RootDetermined(c: Codec, tpm: Tpm, a: Disk, b: Disk, keys: RootKeys, fixed: bool, slot: nat,
                       blobs: set<Blob>, ra: RootSector, rb: RootSector)
    requires Sized(c)
    requires Blobs(a) <= blobs && Blobs(b) <= blobs && NoCollision(c, keys.tm, blobs)
    requires ra.area == rb.area && ra.nrMacs == rb.nrMacs && ra.macs == rb.macs
    requires !LoadRoot(c, tpm, a, keys, fixed, slot, ra).Rejected?
    requires !LoadRoot(c, tpm, b, keys, fixed, slot, rb).Rejected?
    ensures Same(LoadRoot(c, tpm, a, keys, fixed, slot, ra), LoadRoot(c, tpm, b, keys, fixed, slot, rb))
  {
    hide Resolve, LoadGroups, Scan, NoCollision, View;
    var area := ra.area;
    var la := Resolve(c, a, keys.tm, area.nrGroups, ENTRIES_PER_ROOT, area.hashes, ra.locs).value;
    var lb := Resolve(c, b, keys.tm, area.nrGroups, ENTRIES_PER_ROOT, area.hashes, rb.locs).value;
    ResolveDetermined(c, a, b, keys.tm, blobs, area.nrGroups, ENTRIES_PER_ROOT, area.hashes, ra.locs, rb.locs);
    GroupsDetermined(c, tpm, a, b, keys, fixed, blobs, la, lb, area.nrGroups);
    ScanSame(c, ra, rb, LoadGroups(c, tpm, a, keys, fixed, la, area.nrGroups).value,
             LoadGroups(c, tpm, b, keys, fixed, lb, area.nrGroups).value, 0, 0);
  }

  /** A group up to where it is stored and whether it is flagged as rolled back. */
  function Unflagged(hdr: GroupHdr): (r: GroupHdr) {
    var view := View(hdr);
    if view.v.None? then view
    else view.(v := Some(view.v.value.(details := view.v.value.details.(rollback := false))))
  }

  /** The scan changes nothing but the flag and the location. */
  lemma {:induction false} ScanOnlyFlags(c: Codec, root: RootSector, groups: seq<GroupHdr>, i: nat, j: nat)
    requires i <= |groups| && j <= RB_MACS_PER_ROOT && Scan(c, root, groups, i, j).Some?
    ensures forall k :: 0 <= k < |groups| ==>
      Unflagged(Scan(c, root, groups, i, j).value[k]) == Unflagged(groups[k])
    decreases |groups| - i, RB_MACS_PER_ROOT - j
  {
    hide View;
    if i < |groups| {
      if groups[i].v.None? {
        ScanOnlyFlags(c, root, groups, i + 1, j);
      } else if root.macs[j].id < i {
        ScanOnlyFlags(c, root, groups, i, j + 1);
      } else {
        FlagOnly(groups[i]);
        var flagged := groups[i := FlagRollback(groups[i])];
        if j >= root.nrMacs || root.macs[j].id != i {
          ScanOnlyFlags(c, root, flagged, i + 1, j);
        } else if root.macs[j].mac != c.macRoot(groups[i].v.value.keys.rollback, root.area) {
          ScanOnlyFlags(c, root, flagged, i + 1, j + 1);
        } else {
          ScanOnlyFlags(c, root, groups, i + 1, j + 1);
        }
      }
    }
  }

  lemma FlagOnly(hdr: GroupHdr)
    requires hdr.v.Some?
    ensures Unflagged(FlagRollback(hdr)) == Unflagged(hdr)
  {
  }

  lemma UnflaggedSame(a: GroupHdr, b: GroupHdr)
    requires View(a) == View(b)
    ensures Unflagged(a) == Unflagged(b)
  {
  }

  /** Merkle determinism: two disks with the same authenticated root area that both load, whatever their
      rollback MACs and locations, load the same groups and vTPMs; only the rollback flags can differ. */
  lemma AreaDetermined(c: Codec, tpm: Tpm, a: Disk, b: Disk, keys: RootKeys, fixed: bool, slot: nat,
                       blobs: set<Blob>, ra: RootSector, rb: RootSector)
    requires Sized(c) && ra.area == rb.area
    requires Blobs(a) <= blobs && Blobs(b) <= blobs && NoCollision(c, keys.tm, blobs)
    requires LoadRoot(c, tpm, a, keys, fixed, slot, ra).Loaded? && LoadRoot(c, tpm, b, keys, fixed, slot, rb).Loaded?
    ensures var m, n := LoadRoot(c, tpm, a, keys, fixed, slot, ra).m, LoadRoot(c, tpm, b, keys, fixed, slot, rb).m;
      && m.(groups := []) == n.(groups := []) && |m.groups| == |n.groups|
      && forall i :: 0 <= i < |m.groups| ==> Unflagged(m.groups[i]) == Unflagged(n.groups[i])
  {
    hide Resolve, LoadGroups, Scan, NoCollision, View, Unflagged;
    var area := ra.area;
    var la := Resolve(c, a, keys.tm, area.nrGroups, ENTRIES_PER_ROOT, area.hashes, ra.locs).value;
    var lb := Resolve(c, b, keys.tm, area.nrGroups, ENTRIES_PER_ROOT, area.hashes, rb.locs).value;
    ResolveDetermined(c, a, b, keys.tm, blobs, area.nrGroups, ENTRIES_PER_ROOT, area.hashes, ra.locs, rb.locs);
    GroupsDetermined(c, tpm, a, b, keys, fixed, blobs, la, lb, area.nrGroups);
    var ga := LoadGroups(c, tpm, a, keys, fixed, la, area.nrGroups).value;
    var gb := LoadGroups(c, tpm, b, keys, fixed, lb, area.nrGroups).value;
    ScanOnlyFlags(c, ra, ga, 0, 0);
    ScanOnlyFlags(c, rb, gb, 0, 0);
    forall i | 0 <= i < |ga| ensures Unflagged(ga[i]) == Unflagged(gb[i]) {
      UnflaggedSame(ga[i], gb[i]);
    }
  }

  /* Framing. */

  lemma {:induction false} PagesFrame(c: Codec, a: Disk, b: Disk, key: Key, groupKey: Option<Key>,
                                      leaves: Leaves, nrVtpms: nat, k: nat)
    requires Sized(c) && k <= |leaves.hashes| == |leaves.locs| == PagesFor(nrVtpms)
    requires Agree(a, b, leaves.locs)
    ensures LoadPages(c, b, key, groupKey, leaves, nrVtpms, k) == LoadPages(c, a, key, groupKey, leaves, nrVtpms, k)
  {
    if k > 0 {
      PagesFrame(c, a, b, key, groupKey, leaves, nrVtpms, k - 1);
      assert leaves.locs[k - 1] in leaves.locs;
    }
  }

  /** Loading a group reads its own sector and those on its list. */
  lemma GroupFrame(c: Codec, tpm: Tpm, a: Disk, b: Disk, keys: RootKeys, fixed: bool, hash: Digest, loc: Sector)
    requires Sized(c) && LoadGroup(c, tpm, a, keys, fixed, hash, loc).Some?
    requires Read(a, loc) == Read(b, loc)
    requires Agree(a, b, LoadGroup(c, tpm, a, keys, fixed, hash, loc).value.inuse)
    ensures LoadGroup(c, tpm, b, keys, fixed, hash, loc) == LoadGroup(c, tpm, a, keys, fixed, hash, loc)
  {
    hide Resolve, LoadPages, Place;
    var g := c.openGroup(keys.tm, Read(a, loc)).value;
    var n := PagesFor(g.area.nrVtpms);
    var leaves := Resolve(c, a, keys.tm, n, ENTRIES_PER_GROUP, g.area.hashes, g.locs).value;
    ResolveFrame(c, a, b, keys.tm, n, ENTRIES_PER_GROUP, g.area.hashes, g.locs);
    LocsInUse(c, a, keys.tm, n, ENTRIES_PER_GROUP, g.area.hashes, g.locs);
    var unsealed := tpm.unsealGroup(keys.uuid, g.area.boot);
    var groupKey := if unsealed.Opened? then Some(unsealed.keys.group) else None;
    PagesFrame(c, a, b, keys.tm, groupKey, leaves, g.area.nrVtpms, n);
  }

  /** A sector on one of the groups' lists. */
  ghost predicate OnLists(groups: seq<GroupHdr>, s: Sector) {
    exists i :: 0 <= i < |groups| && s in groups[i].inuse
  }

  lemma {:induction false} GroupsFrame(c: Codec, tpm: Tpm, a: Disk, b: Disk, keys: RootKeys, fixed: bool,
                                       leaves: Leaves, k: nat)
    requires Sized(c) && k <= |leaves.hashes| == |leaves.locs|
    requires LoadGroups(c, tpm, a, keys, fixed, leaves, k).Some?
    requires Agree(a, b, leaves.locs)
    requires forall s :: OnLists(LoadGroups(c, tpm, a, keys, fixed, leaves, k).value, s) ==> Read(a, s) == Read(b, s)
    ensures LoadGroups(c, tpm, b, keys, fixed, leaves, k) == LoadGroups(c, tpm, a, keys, fixed, leaves, k)
  {
    hide LoadGroup;
    if k > 0 {
      var all := LoadGroups(c, tpm, a, keys, fixed, leaves, k).value;
      var before := LoadGroups(c, tpm, a, keys, fixed, leaves, k - 1).value;
      forall s | OnLists(before, s) ensures Read(a, s) == Read(b, s) {
        var i :| 0 <= i < |before| && s in before[i].inuse;
        assert all[i] == before[i];
      }
      GroupsFrame(c, tpm, a, b, keys, fixed, leaves, k - 1);
      assert leaves.locs[k - 1] in leaves.locs;
      forall s | s in all[k - 1].inuse ensures Read(a, s) == Read(b, s) {
        assert OnLists(all, s);
      }
      GroupFrame(c, tpm, a, b, keys, fixed, leaves.hashes[k - 1], leaves.locs[k - 1]);
    }
  }

  /** The sectors that loading a root reads. */
  ghost predicate Reached(c: Codec, tpm: Tpm, disk: Disk, keys: RootKeys, fixed: bool, root: RootSector, s: Sector)
    requires Sized(c)
  {
    var n := root.area.nrGroups;
    var leaves := Resolve(c, disk, keys.tm, n, ENTRIES_PER_ROOT, root.area.hashes, root.locs);
    leaves.Some?
    && (s in leaves.value.inuse
        || var groups := LoadGroups(c, tpm, disk, keys, fixed, leaves.value, n);
           groups.Some? && OnLists(groups.value, s))
  }

  /** A root that loads keeps loading the same while the sectors it reaches stay as they are. */
  lemma RootFrame(c: Codec, tpm: Tpm, a: Disk, b: Disk, keys: RootKeys, fixed: bool, slot: nat, root: RootSector)
    requires Sized(c) && !LoadRoot(c, tpm, a, keys, fixed, slot, root).Rejected?
    requires forall s: Sector :: Reached(c, tpm, a, keys, fixed, root, s) ==> Read(a, s) == Read(b, s)
    ensures LoadRoot(c, tpm, b, keys, fixed, slot, root) == LoadRoot(c, tpm, a, keys, fixed, slot, root)
    ensures forall s: Sector ::
      Reached(c, tpm, b, keys, fixed, root, s) <==> Reached(c, tpm, a, keys, fixed, root, s)
  {
    hide Resolve, LoadGroups, Scan;
    var n := root.area.nrGroups;
    var leaves := Resolve(c, a, keys.tm, n, ENTRIES_PER_ROOT, root.area.hashes, root.locs).value;
    var groups := LoadGroups(c, tpm, a, keys, fixed, leaves, n).value;
    forall s | s in leaves.inuse ensures Read(a, s) == Read(b, s) {
      assert Reached(c, tpm, a, keys, fixed, root, s);
    }
    ResolveFrame(c, a, b, keys.tm, n, ENTRIES_PER_ROOT, root.area.hashes, root.locs);
    LocsInUse(c, a, keys.tm, n, ENTRIES_PER_ROOT, root.area.hashes, root.locs);
    forall s | OnLists(groups, s) ensures Read(a, s) == Read(b, s) {
      assert Reached(c, tpm, a, keys, fixed, root, s);
    }
    GroupsFrame(c, tpm, a, b, keys, fixed, leaves, n);
  }
}
