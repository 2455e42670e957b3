/**
 Loading the store: the groups, the rollback scan, and the choice between the two roots.
 */
module GroupRead {
  import opened Wrappers
  import opened Bytes
  import opened DiskFormat
  import opened IndexTree
  import opened DiskLoad
  import opened LoadLaws
  import opened DiskIo
  import opened Stored
  import opened DiskRead
  import opened Rollback
  import opened Authentic

  /** Reading the pages one after the other is reading the list. */
  lemma {:induction false} LoadsList(c: Codec, disk: Disk, key: Key, groupKey: Option<Key>, leaves: Leaves,
                                     nrVtpms: nat, k: nat)
    requires Sized(c) && k <= |leaves.hashes| == |leaves.locs| == PagesFor(nrVtpms)
    ensures var r := LoadPages(c, disk, key, groupKey, leaves, nrVtpms, k);
      && (r.Some? <==> Loads(c, disk, key, groupKey, nrVtpms, leaves.hashes[..k], leaves.locs[..k], 0))
      && (r.Some? ==> r.value == Segment(c, disk, key, groupKey, nrVtpms, leaves.hashes[..k], leaves.locs[..k], 0))
  {
    hide LoadPage;
    if k > 0 {
      LoadsList(c, disk, key, groupKey, leaves, nrVtpms, k - 1);
      var r := LoadPages(c, disk, key, groupKey, leaves, nrVtpms, k);
      var hs, ls := leaves.hashes[..k], leaves.locs[..k];
      var hs', ls' := leaves.hashes[..k - 1], leaves.locs[..k - 1];
      assert PageAt(c, disk, key, groupKey, nrVtpms, hs[k - 1], ls[k - 1], k - 1)
          == LoadPage(c, disk, key, groupKey, leaves.hashes[k - 1], leaves.locs[k - 1],
                      PageSize(nrVtpms, VTPMS_PER_SECTOR * (k - 1)), VTPMS_PER_SECTOR * (k - 1));
      hide PageAt;
      if Loads(c, disk, key, groupKey, nrVtpms, hs, ls, 0) {
        assert PageAt(c, disk, key, groupKey, nrVtpms, hs[k - 1], ls[k - 1], 0 + (k - 1)).Some?;
        forall i | 0 <= i < |hs'| ensures PageAt(c, disk, key, groupKey, nrVtpms, hs'[i], ls'[i], 0 + i).Some? {
          assert PageAt(c, disk, key, groupKey, nrVtpms, hs[i], ls[i], 0 + i).Some?;
        }
        assert r.value == Segment(c, disk, key, groupKey, nrVtpms, hs, ls, 0);
      } else if r.Some? {
        forall i | 0 <= i < |hs| ensures PageAt(c, disk, key, groupKey, nrVtpms, hs[i], ls[i], 0 + i).Some? {
          if i < k - 1 {
            assert PageAt(c, disk, key, groupKey, nrVtpms, hs'[i], ls'[i], 0 + i).Some?;
          }
        }
      }
    }
  }

  function Blank(n: nat): (r: seq<Page>)
    ensures |r| == n
  {
    seq(n, _ => EMPTY_PAGE)
  }

  /** What the walk fills in is what the specification places. */
  lemma PlacedList(c: Codec, disk: Disk, key: Key, groupKey: Option<Key>, leaves: Leaves, nrVtpms: nat, fixed: bool,
                   pages: seq<Page>)
    requires Sized(c) && |leaves.hashes| == |leaves.locs| == PagesFor(nrVtpms)
    ensures var r := LoadPages(c, disk, key, groupKey, leaves, nrVtpms, PagesFor(nrVtpms));
      && (r.Some? <==> Readable(c, disk, key, groupKey, nrVtpms, 0, Some(leaves)))
      && (Filled(c, disk, key, groupKey, nrVtpms, 0, leaves, fixed, LeafPages(PagesFor(nrVtpms)),
                 Blank(PagesFor(nrVtpms)), pages)
          ==> r.Some? && pages == Place(fixed, r.value))
  {
    hide PageAt;
    var n := PagesFor(nrVtpms);
    assert leaves.hashes[..n] == leaves.hashes && leaves.locs[..n] == leaves.locs;
    LoadsList(c, disk, key, groupKey, leaves, nrVtpms, n);
    hide LoadPages, Loads;
    if Filled(c, disk, key, groupKey, nrVtpms, 0, leaves, fixed, LeafPages(n), Blank(n), pages) {
      PutBlank(fixed, Segment(c, disk, key, groupKey, nrVtpms, leaves.hashes, leaves.locs, 0));
    }
  }

  lemma PutBlank(fixed: bool, seg: seq<Page>)
    ensures Put(fixed, LeafPages(|seg|), Blank(|seg|), 0, seg) == Place(fixed, seg)
  {
  }

  /** All groups of a list. */
  function LoadAll(c: Codec, tpm: Tpm, disk: Disk, keys: RootKeys, fixed: bool,
                   leaves: Leaves): (r: Option<seq<GroupHdr>>)
    requires Sized(c) && |leaves.hashes| == |leaves.locs|
    ensures r.Some? ==> |r.value| == |leaves.hashes|
  {
    LoadGroups(c, tpm, disk, keys, fixed, leaves, |leaves.hashes|)
  }

  lemma GroupsLast(c: Codec, tpm: Tpm, disk: Disk, keys: RootKeys, fixed: bool, leaves: Leaves, k: nat)
    requires Sized(c) && 0 < k <= |leaves.hashes| == |leaves.locs|
    ensures var before := LoadGroups(c, tpm, disk, keys, fixed, leaves, k - 1);
      var hdr := LoadGroup(c, tpm, disk, keys, fixed, leaves.hashes[k - 1], leaves.locs[k - 1]);
      LoadGroups(c, tpm, disk, keys, fixed, leaves, k)
      == if before.None? || hdr.None? then None else Some(before.value + [hdr.value])
  {
    hide LoadGroup;
  }

  /** A list is loaded piece by piece. */
  lemma {:induction false} GroupsAppend(c: Codec, tpm: Tpm, disk: Disk, keys: RootKeys, fixed: bool, a: Leaves,
                                        b: Leaves, k: nat)
    requires Sized(c) && |a.hashes| == |a.locs| && k <= |b.hashes| == |b.locs|
    ensures var x, y := LoadAll(c, tpm, disk, keys, fixed, a), LoadGroups(c, tpm, disk, keys, fixed, b, k);
      LoadGroups(c, tpm, disk, keys, fixed, Append(a, b), |a.hashes| + k)
      == if x.None? || y.None? then None else Some(x.value + y.value)
  {
    hide LoadGroup, LoadGroups;
    if k > 0 {
      GroupsAppend(c, tpm, disk, keys, fixed, a, b, k - 1);
      var ab, m := Append(a, b), |a.hashes| + k;
      assert ab.hashes[m - 1] == b.hashes[k - 1] && ab.locs[m - 1] == b.locs[k - 1];
      GroupsLast(c, tpm, disk, keys, fixed, ab, m);
      GroupsLast(c, tpm, disk, keys, fixed, b, k);
      var x, y := LoadAll(c, tpm, disk, keys, fixed, a), LoadGroups(c, tpm, disk, keys, fixed, b, k - 1);
      var hdr := LoadGroup(c, tpm, disk, keys, fixed, b.hashes[k - 1], b.locs[k - 1]);
      if x.Some? && y.Some? && hdr.Some? {
        assert x.value + y.value + [hdr.value] == x.value + (y.value + [hdr.value]);
      }
    } else {
      GroupsNone(c, tpm, disk, keys, fixed, b);
      GroupsPrefix(c, tpm, disk, keys, fixed, a, Append(a, b), |a.hashes|);
      assert forall x: seq<GroupHdr> :: x + [] == x;
    }
  }

  lemma LoadAppend(c: Codec, tpm: Tpm, disk: Disk, keys: RootKeys, fixed: bool, a: Leaves, b: Leaves)
    requires Sized(c) && |a.hashes| == |a.locs| && |b.hashes| == |b.locs|
    ensures var x, y := LoadAll(c, tpm, disk, keys, fixed, a), LoadAll(c, tpm, disk, keys, fixed, b);
      LoadAll(c, tpm, disk, keys, fixed, Append(a, b)) == if x.None? || y.None? then None else Some(x.value + y.value)
  {
    hide LoadGroups;
    GroupsAppend(c, tpm, disk, keys, fixed, a, b, |b.hashes|);
  }

  lemma {:induction false} GroupsPrefix(c: Codec, tpm: Tpm, disk: Disk, keys: RootKeys, fixed: bool, a: Leaves,
                                        b: Leaves, k: nat)
    requires Sized(c) && k <= |a.hashes| == |a.locs| && |b.hashes| == |b.locs|
    requires a.hashes <= b.hashes && a.locs <= b.locs
    ensures LoadGroups(c, tpm, disk, keys, fixed, b, k) == LoadGroups(c, tpm, disk, keys, fixed, a, k)
  {
    hide LoadGroup;
    if k > 0 {
      GroupsPrefix(c, tpm, disk, keys, fixed, a, b, k - 1);
    }
  }

  lemma {:induction false} GroupsShorter(c: Codec, tpm: Tpm, disk: Disk, keys: RootKeys, fixed: bool, leaves: Leaves,
                                         i: nat, k: nat)
    requires Sized(c) && i <= k <= |leaves.hashes| == |leaves.locs|
    requires LoadGroups(c, tpm, disk, keys, fixed, leaves, k).Some?
    ensures LoadGroups(c, tpm, disk, keys, fixed, leaves, i).Some?
    decreases k
  {
    hide LoadGroup;
    if i < k {
      GroupsShorter(c, tpm, disk, keys, fixed, leaves, i, k - 1);
    }
  }

  ghost predicate Found(c: Codec, tpm: Tpm, disk: Disk, keys: RootKeys, fixed: bool, leaves: Option<Leaves>)
    requires Sized(c)
  {
    && leaves.Some? && |leaves.value.hashes| == |leaves.value.locs|
    && LoadAll(c, tpm, disk, keys, fixed, leaves.value).Some?
  }

  lemma GroupChildFails(c: Codec, tpm: Tpm, disk: Disk, keys: RootKeys, fixed: bool, n: nat, hsize: nat,
                        hashes: seq<Digest>, locs: seq<Sector>, i: nat, done: Leaves)
    requires Sized(c) && hsize > 0 && n > hsize && |hashes| == |locs| == hsize && i < Count(n, hsize) <= hsize
    requires ResolveUpTo(c, disk, keys.tm, n, hsize, hashes, locs, i) == Some(done)
    requires !Found(c, tpm, disk, keys, fixed,
                    ResolveChild(c, disk, keys.tm, ChildSize(n, hsize, i), hashes[i], locs[i]))
    ensures !Found(c, tpm, disk, keys, fixed, Resolve(c, disk, keys.tm, n, hsize, hashes, locs))
  {
    hide Count, ChildSize, Covered, ResolveChild, LoadGroups, LoadGroup;
    var all := Resolve(c, disk, keys.tm, n, hsize, hashes, locs);
    if Found(c, tpm, disk, keys, fixed, all) {
      ResolvePrefix(c, disk, keys.tm, n, hsize, hashes, locs, i + 1, Count(n, hsize));
      var next := ResolveUpTo(c, disk, keys.tm, n, hsize, hashes, locs, i + 1).value;
      var child := ResolveChild(c, disk, keys.tm, ChildSize(n, hsize, i), hashes[i], locs[i]).value;
      GroupsShorter(c, tpm, disk, keys, fixed, all.value, |next.hashes|, |all.value.hashes|);
      GroupsPrefix(c, tpm, disk, keys, fixed, next, all.value, |next.hashes|);
      GroupsAppend(c, tpm, disk, keys, fixed, done, child, |child.hashes|);
      assert false;
    }
  }

  /** The table's sectors on the groups' lists. */
  ghost function Lists(groups: seq<GroupHdr>): (r: set<Sector>) {
    set s: Sector | s <= DISK_MAX_SECTOR && OnLists(groups, s)
  }

  lemma ListsAppend(a: seq<GroupHdr>, b: seq<GroupHdr>)
    ensures Lists(a + b) == Lists(a) + Lists(b)
  {
    forall s: Sector ensures OnLists(a + b, s) <==> OnLists(a, s) || OnLists(b, s) {
      if OnLists(a, s) {
        var i :| 0 <= i < |a| && s in a[i].inuse;
        assert (a + b)[i] == a[i];
      }
      if OnLists(b, s) {
        var i :| 0 <= i < |b| && s in b[i].inuse;
        assert (a + b)[|a| + i] == b[i];
      }
    }
  }

  lemma ListsOne(hdr: GroupHdr)
    ensures Lists([hdr]) == InTable(hdr.inuse) && Lists([]) == {}
  {
    forall s: Sector ensures OnLists([hdr], s) <==> s in hdr.inuse {
      assert s in hdr.inuse ==> s in [hdr][0].inuse;
    }
  }

  class Loader {
    const c: Codec
    const tpm: Tpm
    const dev: Device
    const keys: RootKeys
    const slot: nat
    const fixed: bool

    ghost predicate Valid()
      reads this, dev, dev.inuse
    {
      Sized(c) && slot < 2 && dev.Valid() && |dev.used| == 2
    }

    constructor (c: Codec, tpm: Tpm, dev: Device, keys: RootKeys, slot: nat, fixed: bool)
      requires Sized(c) && slot < 2 && dev.Valid()
      ensures Valid() && this.c == c && this.tpm == tpm && this.dev == dev && this.keys == keys
      ensures this.slot == slot && this.fixed == fixed
    {
      this.c, this.tpm, this.dev, this.keys, this.slot, this.fixed := c, tpm, dev, keys, slot, fixed;
    }

    /** load_verify_group. */
    method ReadGroup(hash: Digest, loc: Sector) returns (r: Option<GroupHdr>)
      requires Valid()
      modifies dev`used, dev.inuse
      ensures Valid() && dev.used[1 - slot] == old(dev.used)[1 - slot]
      ensures r == LoadGroup(c, tpm, dev.disk, keys, fixed, hash, loc)
      ensures forall hdr :: r == Some(hdr) <==> GroupShown(c, tpm, dev.disk, keys, fixed, hash, loc, hdr)
      ensures r.Some? ==> dev.used[slot] == old(dev.used)[slot] + InTable([loc]) + InTable(r.value.inuse)
    {
      hide Resolve, LoadPages, Place, Filled, Readable, GroupShown;
      GroupOnly(c, tpm, dev.disk, keys, fixed, hash, loc);
      dev.SetUsed(loc, slot);
      ghost var marked := dev.used[slot];
      assert marked == old(dev.used)[slot] + InTable([loc]);
      var sector := c.openGroup(keys.tm, Read(dev.disk, loc));
      if sector.None? {
        return None;
      }
      var area := sector.value.area;
      if c.hashGroup(area, sector.value.mac) != hash {
        return None;
      }
      var unsealed := tpm.unsealGroup(keys.uuid, area.boot);
      var groupKey := None;
      if unsealed.Opened? {
        groupKey := Some(unsealed.keys.group);
        if c.macGroup(unsealed.keys.group, area) != sector.value.mac {
          return None;
        }
      } else if unsealed.Broken? {
        return None;
      }
      var n := PagesFor(area.nrVtpms);
      var reader := new Reader(c, dev, keys.tm, slot, fixed);
      var ok, pages, inuse :=
        reader.ReadVtpmItree(Blank(n), [], 0, n, area.hashes, sector.value.locs, area.nrVtpms, groupKey, LeafPages(n));
      ghost var leaves := Resolve(c, dev.disk, keys.tm, n, ENTRIES_PER_GROUP, area.hashes, sector.value.locs);
      if leaves.Some? {
        PlacedList(c, dev.disk, keys.tm, groupKey, leaves.value, area.nrVtpms, fixed, pages);
      } else {
        NotReadable(c, dev.disk, keys.tm, groupKey, area.nrVtpms, 0);
      }
      if !ok {
        return None;
      }
      assert inuse == leaves.value.inuse;
      if unsealed.Locked? {
        return Some(GroupHdr(loc, hash, inuse, None));
      }
      var group := Group(area.id, area.details, unsealed.keys, area.nrVtpms, pages, unsealed.nrSeals, true, area.boot);
      return Some(GroupHdr(loc, hash, inuse, Some(group)));
    }

    /** load_verify_group_itree. */
    method ReadGroupItree(groups: seq<GroupHdr>, base: nat, n: nat, hashes: seq<Digest>, locs: seq<Sector>)
      returns (ok: bool, groups': seq<GroupHdr>)
      requires Valid() && base + n <= |groups| && 0 < |hashes| == |locs|
      modifies dev`used, dev.inuse
      ensures Valid() && dev.used[1 - slot] == old(dev.used)[1 - slot]
      ensures var leaves := Resolve(c, dev.disk, keys.tm, n, |hashes|, hashes, locs);
        && (ok <==> Found(c, tpm, dev.disk, keys, fixed, leaves))
        && (ok ==>
            var loaded := LoadAll(c, tpm, dev.disk, keys, fixed, leaves.value).value;
            && groups' == Overwritten(groups, base, loaded)
            && dev.used[slot] == old(dev.used)[slot] + InTable(leaves.value.inuse) + Lists(loaded))
      decreases n, Rank(|hashes|), 1
    {
      hide Count, LoadAll, Lists, InTable, Overwritten;
      if n <= |hashes| {
        ok, groups' := ReadGroups(groups, base, n, hashes, locs);
      } else {
        CountBound(n, |hashes|);
        ghost var done;
        ok, groups', done := ReadGroupChildren(groups, base, n, hashes, locs);
        if ok {
          InTableAppend(locs[..Count(n, |hashes|)], done.inuse);
          LoadAllInuse(c, tpm, dev.disk, keys, fixed, done, locs[..Count(n, |hashes|)] + done.inuse);
        }
      }
    }

    /** The groups of one leaf. */
    method ReadGroups(groups: seq<GroupHdr>, base: nat, n: nat, hashes: seq<Digest>, locs: seq<Sector>)
      returns (ok: bool, groups': seq<GroupHdr>)
      requires Valid() && base + n <= |groups| && n <= |hashes| == |locs|
      modifies dev`used, dev.inuse
      ensures Valid() && dev.used[1 - slot] == old(dev.used)[1 - slot]
      ensures var leaves := Leaves(hashes[..n], locs[..n], locs[..n]);
        && (ok <==> Found(c, tpm, dev.disk, keys, fixed, Some(leaves)))
        && (ok ==>
            var loaded := LoadAll(c, tpm, dev.disk, keys, fixed, leaves).value;
            && groups' == Overwritten(groups, base, loaded)
            && dev.used[slot] == old(dev.used)[slot] + InTable(leaves.inuse) + Lists(loaded))
    {
      hide LoadGroup, LoadGroups, Lists, InTable, Overwritten, Found, LoadAll, Device.Valid;
      groups' := groups;
      ghost var leaves, loaded: seq<GroupHdr> := Leaves(hashes[..n], locs[..n], locs[..n]), [];
      InTableNone();
      ListsOne(GroupHdr(0, [], [], None));
      OverwrittenNone(groups, base);
      GroupsNone(c, tpm, dev.disk, keys, fixed, leaves);
      for i := 0 to n
        invariant Valid() && dev.used[1 - slot] == old(dev.used)[1 - slot]
        invariant LoadGroups(c, tpm, dev.disk, keys, fixed, leaves, i) == Some(loaded) && |loaded| == i
        invariant groups' == Overwritten(groups, base, loaded)
        invariant dev.used[slot] == old(dev.used)[slot] + InTable(locs[..i]) + Lists(loaded)
      {
        var hdr := ReadGroup(hashes[i], locs[i]);
        if hdr.None? {
          GroupFails(c, tpm, dev.disk, keys, fixed, leaves, i);
          return false, groups';
        }
        groups' := groups'[base + i := hdr.value];
        OverwrittenPush(groups, base, loaded, hdr.value);
        GroupsPush(c, tpm, dev.disk, keys, fixed, leaves, i, loaded, hdr.value);
        InTablePush(locs, i);
        ListsAppend(loaded, [hdr.value]);
        ListsOne(hdr.value);
        UnionStep(old(dev.used)[slot], InTable(locs[..i]), {}, Lists(loaded), InTable([locs[i]]), {},
                  Lists([hdr.value]));
        loaded := loaded + [hdr.value];
      }
      ok := true;
      GroupsFound(c, tpm, dev.disk, keys, fixed, leaves);
    }

    /** The loop over the index sectors of one level. */
    method ReadGroupChildren(groups: seq<GroupHdr>, base: nat, n: nat, hashes: seq<Digest>, locs: seq<Sector>)
      returns (ok: bool, groups': seq<GroupHdr>, ghost done: Leaves)
      requires Valid() && base + n <= |groups| && 0 < |hashes| == |locs| < n
      modifies dev`used, dev.inuse
      ensures Valid() && dev.used[1 - slot] == old(dev.used)[1 - slot]
      ensures Count(n, |hashes|) <= |hashes|
      ensures ok <==> Found(c, tpm, dev.disk, keys, fixed, Resolve(c, dev.disk, keys.tm, n, |hashes|, hashes, locs))
      ensures ok ==>
        && ResolveUpTo(c, dev.disk, keys.tm, n, |hashes|, hashes, locs, Count(n, |hashes|)) == Some(done)
        && Found(c, tpm, dev.disk, keys, fixed, Some(done))
        && var loaded := LoadAll(c, tpm, dev.disk, keys, fixed, done).value;
           && groups' == Overwritten(groups, base, loaded)
           && dev.used[slot] == old(dev.used)[slot] + InTable(locs[..Count(n, |hashes|)]) + InTable(done.inuse)
             + Lists(loaded)
      decreases n, Rank(|hashes|), 0
    {
      hide Count, Covered, ChildSize, Resolve, ResolveUpTo, ResolveChild, Append, Lists, InTable, LoadAll, Overwritten,
           Device.Valid;
      var hsize := |hashes|;
      CountBound(n, hsize);
      ResolveNone(c, dev.disk, keys.tm, n, hsize, hashes, locs);
      groups', done := groups, Leaves([], [], []);
      ghost var loaded: seq<GroupHdr> := [];
      InTableNone();
      ListsOne(GroupHdr(0, [], [], None));
      OverwrittenNone(groups, base);
      LoadNone(c, tpm, dev.disk, keys, fixed);
      var count := Count(n, hsize);
      for i := 0 to count
        invariant Valid() && dev.used[1 - slot] == old(dev.used)[1 - slot]
        invariant ResolveUpTo(c, dev.disk, keys.tm, n, hsize, hashes, locs, i) == Some(done)
        invariant LoadAll(c, tpm, dev.disk, keys, fixed, done) == Some(loaded)
        invariant |loaded| == Covered(n, hsize, i) && base + |loaded| <= |groups|
        invariant groups' == Overwritten(groups, base, loaded)
        invariant dev.used[slot] == old(dev.used)[slot] + InTable(locs[..i]) + InTable(done.inuse) + Lists(loaded)
      {
        Partition(n, hsize, i);
        ChildIsSmaller(n, hsize, i);
        CoveredBound(n, hsize, i + 1);
        dev.SetUsed(locs[i], slot);
        var pt := c.openItree(keys.tm, Read(dev.disk, locs[i]));
        ResolveBelow(c, dev.disk, keys.tm, ChildSize(n, hsize, i), hashes[i], locs[i]);
        if pt.None? || c.hashItree(pt.value.hashes) != hashes[i] {
          GroupChildFails(c, tpm, dev.disk, keys, fixed, n, hsize, hashes, locs, i, done);
          return false, groups', done;
        }
        var sector := pt.value;
        ok, groups' := ReadGroupItree(groups', base + Covered(n, hsize, i), ChildSize(n, hsize, i), sector.hashes,
                                      sector.locs);
        ghost var below := ResolveChild(c, dev.disk, keys.tm, ChildSize(n, hsize, i), hashes[i], locs[i]);
        if !ok {
          GroupChildFails(c, tpm, dev.disk, keys, fixed, n, hsize, hashes, locs, i, done);
          return false, groups', done;
        }
        ghost var more := LoadAll(c, tpm, dev.disk, keys, fixed, below.value).value;
        LoadAppend(c, tpm, dev.disk, keys, fixed, done, below.value);
        OverwrittenAppend(groups, base, loaded, more);
        ListsAppend(loaded, more);
        InTablePush(locs, i);
        InTableAppend(done.inuse, below.value.inuse);
        ResolveNext(c, dev.disk, keys.tm, n, hsize, hashes, locs, i, done, below.value);
        AppendInuse([], done, below.value);
        UnionStep(old(dev.used)[slot], InTable(locs[..i]), InTable(done.inuse), Lists(loaded),
                  InTable([locs[i]]), InTable(below.value.inuse), Lists(more));
        done, loaded := Append(done, below.value), loaded + more;
      }
      ok := true;
      AllFound(c, tpm, dev.disk, keys, fixed, n, hashes, locs, done);
    }

    /** load_root_post: the groups, the check that group 0 is open, and the rollback scan. */
    method LoadRootPost(root: RootSector) returns (r: Outcome)
      requires Valid()
      modifies dev`used, dev.inuse
      ensures Valid() && dev.used[1 - slot] == old(dev.used)[1 - slot]
      ensures r == LoadRoot(c, tpm, dev.disk, keys, fixed, slot, root)
      ensures Answers(c, tpm, dev.disk, keys, fixed, slot, root, r)
      ensures !r.Rejected? ==> forall s: Sector ::
        s in dev.used[slot] <==>
          s in old(dev.used)[slot] || (s <= DISK_MAX_SECTOR && Reached(c, tpm, dev.disk, keys, fixed, root, s))
    {
      hide Resolve, LoadGroups, Scan, OnLists, Answers;
      RootAnswers(c, tpm, dev.disk, keys, fixed, slot, root);
      var n := root.area.nrGroups;
      if !tpm.counterOk(root.area.counter) || n == 0 {
        return Rejected;
      }
      var blank := seq(n, _ => GroupHdr(0, [], [], None));
      var ok, groups := ReadGroupItree(blank, 0, n, root.area.hashes, root.locs);
      if !ok {
        return Rejected;
      }
      ghost var leaves := Resolve(c, dev.disk, keys.tm, n, ENTRIES_PER_ROOT, root.area.hashes, root.locs).value;
      assert groups == LoadAll(c, tpm, dev.disk, keys, fixed, leaves).value;
      if groups[0].v.None? || root.nrMacs > RB_MACS_PER_ROOT {
        return Rejected;
      }
      var scanned := ScanGroups(c, root, groups);
      if scanned.None? {
        return OutOfBounds;
      }
      assert LoadGroups(c, tpm, dev.disk, keys, fixed, leaves, n) == Some(groups);
      return Loaded(Manager(keys, root.area.counter, root.area.sequence, slot, scanned.value));
    }
  }

  /** The two-pointer scan of load_root_post. */
  method ScanGroups(c: Codec, root: RootSector, groups: seq<GroupHdr>) returns (r: Option<seq<GroupHdr>>)
    ensures r == Scan(c, root, groups, 0, 0)
    ensures Ordered(root) ==> (r.None? <==> exists i :: Overruns(root, groups, i))
    ensures Ordered(root) && r.Some? ==>
      |r.value| == |groups| && forall i :: 0 <= i < |groups| ==> Judged(c, root, i, groups[i], r.value[i])
  {
    hide Judged, Overruns, Ordered;
    if Ordered(root) {
      ScanExact(c, root, groups);
      if Scan(c, root, groups, 0, 0).Some? {
        ScanJudges(c, root, groups);
      }
    }
    var i, j, now := 0, 0, groups;
    while i < |now|
      invariant |now| == |groups| && i <= |now| && j <= RB_MACS_PER_ROOT
      invariant Scan(c, root, groups, 0, 0) == Scan(c, root, now, i, j)
      decreases |now| - i, RB_MACS_PER_ROOT - j
    {
      if now[i].v.None? {
        i := i + 1;
      } else if j == RB_MACS_PER_ROOT {
        return None;
      } else if root.macs[j].id < i {
        j := j + 1;
      } else if j >= root.nrMacs || root.macs[j].id != i {
        now := now[i := FlagRollback(now[i])];
        i := i + 1;
      } else {
        if root.macs[j].mac != c.macRoot(now[i].v.value.keys.rollback, root.area) {
          now := now[i := FlagRollback(now[i])];
        }
        i, j := i + 1, j + 1;
      }
    }
    return Some(now);
  }

  /** One root, if it has been found: loading it marks what it reaches. */
  method TryRoot(c: Codec, tpm: Tpm, dev: Device, fixed: bool, slot: nat,
                 candidate: Option<Candidate>) returns (r: Outcome)
    requires Sized(c) && dev.Valid() && slot < 2 && candidate == FindRoot(c, tpm, dev.disk, slot)
    modifies dev`used, dev.inuse
    ensures dev.Valid() && dev.used[1 - slot] == old(dev.used)[1 - slot]
    ensures r == Try(c, tpm, dev.disk, fixed, slot)
    ensures !r.Rejected? ==>
      && candidate.Some?
      && Answers(c, tpm, dev.disk, candidate.value.keys, fixed, slot, candidate.value.root, r)
      && forall s: Sector :: s in dev.used[slot] <==>
        || s in old(dev.used)[slot]
        || (s <= DISK_MAX_SECTOR && Reached(c, tpm, dev.disk, candidate.value.keys, fixed, candidate.value.root, s))
  {
    hide LoadRoot, FindRoot, Reached, Answers;
    if candidate.None? {
      return Rejected;
    }
    var loader := new Loader(c, tpm, dev, candidate.value.keys, slot, fixed);
    r := loader.LoadRootPost(candidate.value.root);
  }

  /** find_root_key: the first entry of the slot's seal list that opens. */
  method FindRootKey(c: Codec, tpm: Tpm, list: Blob) returns (r: Option<RootKeys>)
    ensures r == UnsealRoot(c, tpm, list)
    ensures r.Some? ==>
      && c.openList(list).Some?
      && exists i :: 0 <= i < |c.openList(list).value| && tpm.unsealEntry(c.openList(list).value[i]) == r
                     && forall j :: 0 <= j < i ==> tpm.unsealEntry(c.openList(list).value[j]).None?
    ensures r.None? && c.openList(list).Some? ==>
      forall i :: 0 <= i < |c.openList(list).value| ==> tpm.unsealEntry(c.openList(list).value[i]).None?
  {
    hide FirstOpen;
    var parsed := c.openList(list);
    if parsed.None? {
      return None;
    }
    var entries := parsed.value;
    for i := 0 to |entries|
      invariant forall j :: 0 <= j < i ==> tpm.unsealEntry(entries[j]).None?
    {
      r := tpm.unsealEntry(entries[i]);
      if r.Some? {
        FirstOpenAt(tpm.unsealEntry, entries, i);
        return;
      }
    }
    FirstOpenAt(tpm.unsealEntry, entries, |entries|);
    return None;
  }

  /** The keys of a slot, and its root if it opens with them. */
  method FindCandidate(c: Codec, tpm: Tpm, disk: Disk, slot: nat) returns (r: Option<Candidate>)
    ensures r == FindRoot(c, tpm, disk, slot)
  {
    hide UnsealRoot;
    var keys := FindRootKey(c, tpm, Read(disk, slot));
    if keys.None? {
      return None;
    }
    var root := c.openRoot(keys.value.tm, Read(disk, 2 + slot));
    if root.None? {
      return None;
    }
    return Some(Candidate(keys.value, root.value));
  }

  /** vtpm_load_disk. */
  method LoadDisk(c: Codec, tpm: Tpm, dev: Device, fixed: bool) returns (r: Outcome)
    requires Sized(c) && dev.Valid()
    modifies dev`used, dev.inuse
    ensures dev.Valid() && r == Load(c, tpm, dev.disk, fixed)
    ensures r.Loaded? ==>
      && r.m.activeRoot < 2 && FindRoot(c, tpm, dev.disk, r.m.activeRoot).Some?
      && r == Try(c, tpm, dev.disk, fixed, r.m.activeRoot)
      && var root := FindRoot(c, tpm, dev.disk, r.m.activeRoot).value.root;
         && Answers(c, tpm, dev.disk, r.m.keys, fixed, r.m.activeRoot, root, r)
         && forall s: Sector :: s in dev.used[r.m.activeRoot] <==>
           || s in old(dev.used)[r.m.activeRoot]
           || (s <= DISK_MAX_SECTOR && Reached(c, tpm, dev.disk, r.m.keys, fixed, root, s))
  {
    hide LoadRoot, FindRoot, Reached, Answers;
    var first := FindCandidate(c, tpm, dev.disk, 0);
    var second := FindCandidate(c, tpm, dev.disk, 1);
    TrySlot(c, tpm, dev.disk, fixed, 0);
    TrySlot(c, tpm, dev.disk, fixed, 1);
    if first.None? && second.None? {
      return Rejected;
    }
    if first.Some? && second.Some? && second.value.root.area.sequence > first.value.root.area.sequence {
      r := TryRoot(c, tpm, dev, fixed, 1, second);
      if !r.Rejected? {
        return;
      }
      r := TryRoot(c, tpm, dev, fixed, 0, first);
      return;
    }
    r := TryRoot(c, tpm, dev, fixed, 0, first);
    if r.Rejected? {
      r := TryRoot(c, tpm, dev, fixed, 1, second);
    }
  }

  lemma LoadNone(c: Codec, tpm: Tpm, disk: Disk, keys: RootKeys, fixed: bool)
    requires Sized(c)
    ensures LoadAll(c, tpm, disk, keys, fixed, Leaves([], [], [])) == Some([])
  {
  }

  lemma GroupsNone(c: Codec, tpm: Tpm, disk: Disk, keys: RootKeys, fixed: bool, leaves: Leaves)
    requires Sized(c) && |leaves.hashes| == |leaves.locs|
    ensures LoadGroups(c, tpm, disk, keys, fixed, leaves, 0) == Some([])
  {
  }

  /** One more group. */
  lemma GroupsPush(c: Codec, tpm: Tpm, disk: Disk, keys: RootKeys, fixed: bool, leaves: Leaves, i: nat,
                   loaded: seq<GroupHdr>, hdr: GroupHdr)
    requires Sized(c) && i < |leaves.hashes| == |leaves.locs|
    requires LoadGroups(c, tpm, disk, keys, fixed, leaves, i) == Some(loaded)
    requires LoadGroup(c, tpm, disk, keys, fixed, leaves.hashes[i], leaves.locs[i]) == Some(hdr)
    ensures LoadGroups(c, tpm, disk, keys, fixed, leaves, i + 1) == Some(loaded + [hdr])
  {
    hide LoadGroup;
  }

  /** A group that does not load ends it. */
  lemma GroupFails(c: Codec, tpm: Tpm, disk: Disk, keys: RootKeys, fixed: bool, leaves: Leaves, i: nat)
    requires Sized(c) && i < |leaves.hashes| == |leaves.locs|
    requires LoadGroup(c, tpm, disk, keys, fixed, leaves.hashes[i], leaves.locs[i]) == None
    ensures !Found(c, tpm, disk, keys, fixed, Some(leaves))
  {
    hide LoadGroup;
    if Found(c, tpm, disk, keys, fixed, Some(leaves)) {
      GroupsShorter(c, tpm, disk, keys, fixed, leaves, i + 1, |leaves.hashes|);
      assert false;
    }
  }

  lemma GroupsFound(c: Codec, tpm: Tpm, disk: Disk, keys: RootKeys, fixed: bool, leaves: Leaves)
    requires Sized(c) && |leaves.hashes| == |leaves.locs|
    ensures LoadAll(c, tpm, disk, keys, fixed, leaves) == LoadGroups(c, tpm, disk, keys, fixed, leaves, |leaves.hashes|)
    ensures Found(c, tpm, disk, keys, fixed, Some(leaves)) <==> LoadAll(c, tpm, disk, keys, fixed, leaves).Some?
  {
    hide LoadGroups;
  }

  lemma OverwrittenPush(groups: seq<GroupHdr>, base: nat, loaded: seq<GroupHdr>, hdr: GroupHdr)
    requires base + |loaded| < |groups|
    ensures Overwritten(groups, base, loaded)[base + |loaded| := hdr] == Overwritten(groups, base, loaded + [hdr])
  {
  }

  lemma OverwrittenAppend(groups: seq<GroupHdr>, base: nat, a: seq<GroupHdr>, b: seq<GroupHdr>)
    requires base + |a| + |b| <= |groups|
    ensures Overwritten(Overwritten(groups, base, a), base + |a|, b) == Overwritten(groups, base, a + b)
  {
  }

  lemma InTablePush(locs: seq<Sector>, i: nat)
    requires i < |locs|
    ensures InTable(locs[..i + 1]) == InTable(locs[..i]) + InTable([locs[i]])
    ensures InTable([locs[i]]) == if locs[i] <= DISK_MAX_SECTOR then {locs[i]} else {}
  {
    assert locs[..i + 1] == locs[..i] + [locs[i]];
  }

  lemma UnionStep(u: set<Sector>, a: set<Sector>, b: set<Sector>, d: set<Sector>, a': set<Sector>, b': set<Sector>,
                  d': set<Sector>)
    ensures u + (a + a') + (b + b') + (d + d') == u + a + b + d + a' + b' + d'
  {
  }

  lemma InTableAppend(a: seq<Sector>, b: seq<Sector>)
    ensures InTable(a + b) == InTable(a) + InTable(b)
  {
  }

  lemma LoadAllInuse(c: Codec, tpm: Tpm, disk: Disk, keys: RootKeys, fixed: bool, leaves: Leaves, inuse: seq<Sector>)
    requires Sized(c) && |leaves.hashes| == |leaves.locs|
    ensures LoadAll(c, tpm, disk, keys, fixed, leaves.(inuse := inuse)) == LoadAll(c, tpm, disk, keys, fixed, leaves)
  {
    GroupsPrefix(c, tpm, disk, keys, fixed, leaves, leaves.(inuse := inuse), |leaves.hashes|);
  }

  lemma AllFound(c: Codec, tpm: Tpm, disk: Disk, keys: RootKeys, fixed: bool, n: nat, hashes: seq<Digest>,
                 locs: seq<Sector>, done: Leaves)
    requires Sized(c) && 0 < |hashes| == |locs| < n && Count(n, |hashes|) <= |hashes|
    requires ResolveUpTo(c, disk, keys.tm, n, |hashes|, hashes, locs, Count(n, |hashes|)) == Some(done)
    requires Found(c, tpm, disk, keys, fixed, Some(done))
    ensures Found(c, tpm, disk, keys, fixed, Resolve(c, disk, keys.tm, n, |hashes|, hashes, locs))
  {
    hide Count, ResolveUpTo, LoadAll;
    LoadAllInuse(c, tpm, disk, keys, fixed, done, locs[..Count(n, |hashes|)] + done.inuse);
  }
}
