/**
 Writing groups: each stale group's sector after its pages, and the tree above the groups.
 */
module GroupWrite {
  import opened Wrappers
  import opened Bytes
  import opened DiskFormat
  import opened IndexTree
  import opened DiskLoad
  import opened DiskIo
  import opened Stored
  import opened DiskWrite

  function MakeGroupSector(c: Codec, g: Group, boot: Blob, hashes: seq<Digest>, locs: seq<Sector>): (r: GroupSector)
    requires |hashes| == |locs| == ENTRIES_PER_GROUP
    ensures r.area == GroupArea(g.id, g.details, boot, g.nrVtpms, hashes)
    ensures r.mac == c.macGroup(g.keys.group, r.area) && r.locs == locs
  {
    var area := GroupArea(g.id, g.details, boot, g.nrVtpms, hashes);
    GroupData(area, c.macGroup(g.keys.group, area), locs)
  }

  function SealGroup(c: Codec, key: Key, iv: Blob, sector: GroupSector): (r: Blob)
    ensures Faithful(c) ==> c.openGroup(key, r) == Some(sector)
  {
    c.sealGroup(key, iv, sector)
  }

  /** generate_group_seals, when the group's seals are out of date. */
  function SealBoot(c: Codec, g: Group, random: Blob): (r: Blob)
    ensures SealedFor(c, g, r)
  {
    c.sealBoot(g.keys, g.nrSeals, random)
  }

  class GroupWriter {
    const w: Writer
    /** Whether the leaf loop of the group tree stops at its own entries, or, as the code is written,
        only after as many as there are groups. */
    const fixed: bool

    ghost predicate Valid()
      reads this, w, w.dev, w.dev.inuse
    {
      w.Valid()
    }

    constructor (w: Writer, fixed: bool)
      requires w.Valid()
      ensures Valid() && this.w == w && this.fixed == fixed
    {
      this.w, this.fixed := w, fixed;
    }

    /** disk_write_group_sector. */
    method WriteGroupSector(hdr: GroupHdr) returns (ok: bool, hdr': GroupHdr, ghost taken: set<Sector>)
      requires Valid() && GroupReady(w.c, w.dev.disk, w.dev.used[w.slot], w.key, hdr)
      modifies w.dev, w.dev.inuse
      ensures Valid() && Step(old(Now(w.dev)), Now(w.dev), w.slot, taken)
      ensures ok ==> GroupWritten(w.c, hdr, hdr') && Refreshed(w.c, w.dev.disk, w.dev.used[w.slot], w.key, hdr, hdr')
      ensures !ok ==> Full(Now(w.dev)) || Unwritable(hdr)
      ensures Unwritable(hdr) ==> !ok
      ensures hdr.loc != 0 ==> taken == {}
      ensures ok ==> forall s :: s in taken ==> s == hdr'.loc || s in hdr'.inuse
    {
      hide Faithful, Step, GroupKept, HdrKept, Resolve, PagesReady, PagesKept, PagesWritten, Listed, Paged, Full;
      ghost var before := Now(w.dev);
      StepNone(before, w.slot);
      hdr', taken := hdr, {};
      if hdr.loc != 0 {
        return true, hdr, {};
      }
      if hdr.v.None? {
        return false, hdr, {};
      }
      var g := hdr.v.value;
      var hash, loc := new Digest[ENTRIES_PER_GROUP](_ => Zeros(32)), new Sector[ENTRIES_PER_GROUP](_ => 0);
      var pages, inuse; ghost var leaves;
      ok, pages, inuse, taken, leaves := w.WriteVtpmItree(g.pages, 0, |g.pages|, hash, loc, g.keys.group, []);
      if !ok {
        return;
      }
      var boot := g.boot;
      if !g.sealValid {
        if g.nrSeals > SEALS_PER_GROUP {
          return false, hdr, taken;
        }
        var random: Blob := *;
        boot := SealBoot(w.c, g, random);
      }
      var sector := MakeGroupSector(w.c, g, boot, hash[..], loc[..]);
      var digest := w.c.hashGroup(sector.area, sector.mac);
      var iv: Blob := *;
      var blob := SealGroup(w.c, w.key, iv, sector);
      ghost var middle := Now(w.dev);
      var s;
      ok, s := w.dev.WriteFree(w.slot, blob);
      if !ok {
        NoneFree(Now(w.dev));
        return;
      }
      StepOne(middle, Now(w.dev), w.slot, s, blob);
      StepTrans(before, middle, Now(w.dev), w.slot, taken, {s});
      var g' := g.(pages := pages, boot := boot, sealValid := true);
      hdr' := GroupHdr(s, digest, inuse, Some(g'));
      assert multiset(inuse) == multiset(leaves.inuse);
      SameSectors(inuse, leaves.inuse);
      GroupStored(w.c, middle, Now(w.dev), w.slot, taken, w.key, g, hdr', sector, leaves);
      KeptIsVersion(w.c, w.dev.disk, w.dev.used[w.slot], w.key, hdr');
      taken := taken + {s};
    }

    /** The leaf case of disk_write_group_itree.  As written it runs over as many groups as there are
        in all, past the end of the caller's arrays if they are more than fit. */
    method WriteGroupLeaf(groups: seq<GroupHdr>, base: nat, n: nat, hash: array<Digest>, loc: array<Sector>)
      returns (ok: bool, groups': seq<GroupHdr>, ghost taken: set<Sector>)
      requires Valid() && base + n <= |groups| && n <= hash.Length == loc.Length && w.Apart(hash, loc)
      requires fixed || (base == 0 && n == |groups|) || |groups| > hash.Length
      requires GroupsReady(w.c, w.dev.disk, w.dev.used[w.slot], w.key, groups, base, base + n)
      modifies w.dev, w.dev.inuse, hash, loc
      ensures Valid() && Step(old(Now(w.dev)), Now(w.dev), w.slot, taken)
      ensures !ok ==> Full(Now(w.dev)) || (!fixed && |groups| > hash.Length) || SomeUnwritable(groups, base, base + n)
      ensures ok ==>
        && (fixed || |groups| <= hash.Length)
        && |groups'| == |groups| && GroupsWritten(w.c, groups, groups', base, base + n)
        && GroupsKept(w.c, w.dev.disk, w.dev.used[w.slot], w.key, groups, groups', base, base + n)
        && hash[..n] == HdrHashes(groups')[base..base + n] && loc[..n] == HdrLocs(groups')[base..base + n]
        && Accounted(taken, groups', base, base + n)
    {
      hide Faithful, Step, GroupLeafState, GroupsReady, GroupsKept, GroupsWritten, Accounted, Refreshed, GroupReady,
           GroupWritten, Full, Unwritable;
      groups', taken := groups, {};
      ghost var start := Now(w.dev);
      StepNone(start, w.slot);
      var bound := if fixed then n else |groups|;
      if bound > hash.Length {
        return false, groups, {};
      }
      GroupLeafStart(w.c, start, w.slot, w.key, groups, base, n);
      for i := 0 to bound
        invariant Valid() && Step(start, Now(w.dev), w.slot, taken)
        invariant GroupLeafState(w.c, Now(w.dev), w.slot, w.key, groups, groups', base, i, n, taken)
        invariant |groups'| == |groups|
        invariant forall j :: 0 <= j < i ==> hash[j] == groups'[base + j].hash && loc[j] == groups'[base + j].loc
      {
        ghost var before := Now(w.dev);
        GroupLeafNext(w.c, before, w.slot, w.key, groups, groups', base, i, n, taken);
        var hdr; ghost var t;
        ok, hdr, t := WriteGroupSector(groups'[base + i]);
        StepTrans(start, before, Now(w.dev), w.slot, taken, t);
        if !ok {
          taken := taken + t;
          return;
        }
        GroupLeafStep(w.c, before, Now(w.dev), w.slot, w.key, groups, groups', hdr, base, i, n, taken, t);
        groups' := groups'[base + i := hdr];
        taken := taken + t;
        loc[i] := hdr.loc;
        hash[i] := hdr.hash;
      }
      ok := true;
      GroupLeafEnd(w.c, Now(w.dev), w.slot, w.key, groups, groups', base, n, taken);
      GroupLeafArrays(groups', base, n, hash[..], loc[..]);
    }

    /** disk_write_group_itree: n groups from base on, and the tree above them. */
    method WriteGroupItree(groups: seq<GroupHdr>, base: nat, n: nat, hash: array<Digest>, loc: array<Sector>)
      returns (ok: bool, groups': seq<GroupHdr>, ghost taken: set<Sector>, ghost leaves: Leaves)
      requires Valid() && base + n <= |groups| && w.Apart(hash, loc)
      requires hash.Length == loc.Length && (hash.Length == ENTRIES_PER_ROOT || hash.Length == ENTRIES_PER_ITREE)
      requires fixed || (base == 0 && n == |groups|) || |groups| > ENTRIES_PER_ITREE
      requires GroupsReady(w.c, w.dev.disk, w.dev.used[w.slot], w.key, groups, base, base + n)
      modifies w.dev, w.dev.inuse, hash, loc
      ensures Valid() && Step(old(Now(w.dev)), Now(w.dev), w.slot, taken)
      ensures ok && n > 0 && !fixed ==> |groups| <= ENTRIES_PER_ITREE
      ensures !ok ==>
        Full(Now(w.dev)) || (!fixed && |groups| > ENTRIES_PER_ITREE) || SomeUnwritable(groups, base, base + n)
      ensures ok ==>
        && |groups'| == |groups| && GroupsWritten(w.c, groups, groups', base, base + n)
        && GroupsKept(w.c, w.dev.disk, w.dev.used[w.slot], w.key, groups, groups', base, base + n)
        && Listed(w.c, w.dev.disk, w.dev.used[w.slot], w.key, HdrHashes(groups'), HdrLocs(groups'), base, n,
                  hash[..], loc[..], leaves)
        && AccountedWith(taken, leaves.inuse, groups', base, base + n)
      decreases n, Rank(hash.Length), 1
    {
      hide Faithful, Step, GroupsReady, GroupsKept, GroupsWritten, Accounted, AccountedWith, Listed, ListedUpTo, Full,
           SomeUnwritable;
      leaves := Leaves([], [], []);
      if n <= hash.Length {
        ok, groups', taken := WriteGroupLeaf(groups, base, n, hash, loc);
        if ok {
          leaves := Leaves(hash[..n], loc[..n], loc[..n]);
          GroupLeafListed(w.c, w.dev.disk, w.dev.used[w.slot], w.key, groups, groups', base, n, hash[..], loc[..],
                          taken);
        }
        return;
      }
      ok, groups', taken, leaves := WriteGroupChildren(groups, base, n, hash, loc);
      if ok {
        ghost var count := Count(n, hash.Length);
        CountBound(n, hash.Length);
        ListedDone(w.c, w.dev.disk, w.dev.used[w.slot], w.key, HdrHashes(groups'), HdrLocs(groups'), base, n,
                   hash[..], loc[..], leaves);
        leaves := leaves.(inuse := loc[..count] + leaves.inuse);
      }
    }

    /** One index sector and what is below it: the state in between, and the sectors taken before and by it. */
    method WriteGroupChild(groups: seq<GroupHdr>, base: nat, n: nat, hash: array<Digest>, loc: array<Sector>, i: nat)
      returns (ok: bool, groups': seq<GroupHdr>, ghost middle: Snapshot, ghost taken: set<Sector>, ghost below: Leaves,
               ghost node: ItreeSector, ghost s: Sector)
      requires Valid() && base + n <= |groups| && n > 0 && w.Apart(hash, loc) && i < hash.Length == loc.Length
      requires fixed || (base == 0 && n == |groups|) || |groups| > ENTRIES_PER_ITREE
      requires GroupsReady(w.c, w.dev.disk, w.dev.used[w.slot], w.key, groups, base, base + n)
      modifies w.dev, w.dev.inuse, hash, loc
      ensures Valid() && Step(old(Now(w.dev)), middle, w.slot, taken)
      ensures ok && !fixed ==> |groups| <= ENTRIES_PER_ITREE
      ensures !ok ==>
        && middle == Now(w.dev)
        && (Full(Now(w.dev)) || (!fixed && |groups| > ENTRIES_PER_ITREE) || SomeUnwritable(groups, base, base + n))
      ensures ok ==>
        && Step(middle, Now(w.dev), w.slot, {s})
        && |groups'| == |groups| && GroupsWritten(w.c, groups, groups', base, base + n)
        && GroupsKept(w.c, middle.disk, middle.used[w.slot], w.key, groups, groups', base, base + n)
        && Listed(w.c, middle.disk, middle.used[w.slot], w.key, HdrHashes(groups'), HdrLocs(groups'), base, n,
                  node.hashes, node.locs, below)
        && AccountedWith(taken, below.inuse, groups', base, base + n)
        && hash[..] == old(hash[..])[i := w.c.hashItree(node.hashes)] && loc[..] == old(loc[..])[i := s]
        && w.c.openItree(w.key, Read(w.dev.disk, s)) == Some(node) && Dynamic(s) && s in w.dev.used[w.slot]
      decreases n, Rank(ENTRIES_PER_ITREE), 2
    {
      hide Faithful, Step, GroupsReady, GroupsKept, GroupsWritten, AccountedWith, Listed, Full, SomeUnwritable,
           HdrHashes, HdrLocs, Dynamic;
      var childHash, childLoc := new Digest[ENTRIES_PER_ITREE], new Sector[ENTRIES_PER_ITREE];
      ok, groups', taken, below := WriteGroupItree(groups, base, n, childHash, childLoc);
      middle, node, s := Now(w.dev), Node(seq(ENTRIES_PER_ITREE, _ => 0), seq(ENTRIES_PER_ITREE, _ => [])), 0;
      if ok {
        ok, node, s := w.WriteNode(childHash, childLoc, hash, loc, i);
      }
    }

    /** The loop of disk_write_group_itree over the index sectors of one level. */
    method WriteGroupChildren(groups: seq<GroupHdr>, base: nat, n: nat, hash: array<Digest>, loc: array<Sector>)
      returns (ok: bool, groups': seq<GroupHdr>, ghost taken: set<Sector>, ghost leaves: Leaves)
      requires Valid() && base + n <= |groups| && w.Apart(hash, loc) && n > hash.Length
      requires hash.Length == loc.Length && (hash.Length == ENTRIES_PER_ROOT || hash.Length == ENTRIES_PER_ITREE)
      requires fixed || (base == 0 && n == |groups|) || |groups| > ENTRIES_PER_ITREE
      requires GroupsReady(w.c, w.dev.disk, w.dev.used[w.slot], w.key, groups, base, base + n)
      modifies w.dev, w.dev.inuse, hash, loc
      ensures Valid() && Step(old(Now(w.dev)), Now(w.dev), w.slot, taken)
      ensures ok && !fixed ==> |groups| <= ENTRIES_PER_ITREE
      ensures !ok ==>
        Full(Now(w.dev)) || (!fixed && |groups| > ENTRIES_PER_ITREE) || SomeUnwritable(groups, base, base + n)
      ensures ok ==>
        && |groups'| == |groups| && GroupsWritten(w.c, groups, groups', base, base + n)
        && GroupsKept(w.c, w.dev.disk, w.dev.used[w.slot], w.key, groups, groups', base, base + n)
        && ListedUpTo(w.c, w.dev.disk, w.dev.used[w.slot], w.key, HdrHashes(groups'), HdrLocs(groups'), base, n,
                      hash[..], loc[..], Count(n, hash.Length), leaves)
        && Count(n, hash.Length) <= loc.Length
        && AccountedWith(taken, loc[..Count(n, hash.Length)] + leaves.inuse, groups', base, base + n)
      decreases n, Rank(hash.Length), 0
    {
      hide Faithful, Step, GroupTreeState, GroupsReady, GroupsKept, GroupsWritten, Accounted, AccountedWith, Listed,
           ListedUpTo, Count, Covered, ChildSize, Device.Valid, Full, SomeUnwritable, HdrHashes, HdrLocs, Append;
      var hsize := hash.Length;
      groups', taken, leaves := groups, {}, Leaves([], [], []);
      ghost var start := Now(w.dev);
      StepNone(start, w.slot);
      CountBound(n, hsize);
      OneChild(n, hsize);
      GroupTreeStart(w.c, start, w.slot, w.key, groups, base, n, hash[..], loc[..]);
      var count := Count(n, hsize);
      for i := 0 to count
        invariant Valid() && Step(start, Now(w.dev), w.slot, taken) && |groups'| == |groups|
        invariant i > 0 && !fixed ==> |groups| <= ENTRIES_PER_ITREE
        invariant GroupTreeState(w.c, Now(w.dev), w.slot, w.key, groups, groups', base, n, hash[..], loc[..], i,
                                 leaves, taken)
      {
        ghost var a, was, hashes, locs := Now(w.dev), groups', hash[..], loc[..];
        Partition(n, hsize, i);
        ChildIsSmaller(n, hsize, i);
        GroupTreeNext(w.c, a, w.slot, w.key, groups, was, base, n, hashes, locs, i, leaves, taken);
        ghost var b, t1, below, node, s;
        ok, groups', b, t1, below, node, s :=
          WriteGroupChild(groups', base + Covered(n, hsize, i), ChildSize(n, hsize, i), hash, loc, i);
        StepTrans(start, a, b, w.slot, taken, t1);
        if !ok {
          StillUnwritable(w.c, a, w.slot, w.key, groups, was, base, n, hashes, locs, i, leaves, taken);
          taken := taken + t1;
          return;
        }
        StepTrans(start, b, Now(w.dev), w.slot, taken + t1, {s});
        GroupTreeStep(w.c, a, b, Now(w.dev), w.slot, w.key, groups, was, groups', base, n, hashes, locs, i, leaves,
                      taken, t1, node, below, s);
        taken := taken + t1 + {s};
        leaves := Append(leaves, below);
      }
      ok := true;
      GroupTreeEnd(w.c, Now(w.dev), w.slot, w.key, groups, groups', base, n, hash[..], loc[..], leaves, taken);
    }
  }

  /** Why a group's sector cannot be made: the group is stale but not open, or has too many seals. */
  ghost predicate Unwritable(hdr: GroupHdr) {
    hdr.loc == 0 && (hdr.v.None? || (!hdr.v.value.sealValid && hdr.v.value.nrSeals > SEALS_PER_GROUP))
  }

  ghost predicate SomeUnwritable(groups: seq<GroupHdr>, lo: nat, hi: nat)
    requires lo <= hi <= |groups|
  {
    exists j :: lo <= j < hi && Unwritable(groups[j])
  }

  lemma NoneFree(now: Snapshot)
    requires |now.used| == 2 && !exists f :: Dynamic(f) && f !in now.used[0] + now.used[1]
    ensures Full(now)
  {
  }

  /** A child's groups are still as they were. */
  lemma StillUnwritable(c: Codec, now: Snapshot, slot: nat, key: Key, groups: seq<GroupHdr>, was: seq<GroupHdr>,
                        base: nat, n: nat, hashes: seq<Digest>, locs: seq<Sector>, i: nat, leaves: Leaves,
                        taken: set<Sector>)
    requires Sized(c) && |hashes| > 0 && n > |hashes| && i < Count(n, |hashes|)
    requires GroupTreeState(c, now, slot, key, groups, was, base, n, hashes, locs, i, leaves, taken)
    ensures var lo := base + Covered(n, |hashes|, i);
      && lo + ChildSize(n, |hashes|, i) <= |groups| == |was| && base + n <= |groups|
      && (SomeUnwritable(was, lo, lo + ChildSize(n, |hashes|, i)) ==> SomeUnwritable(groups, base, base + n))
  {
    hide ListedUpTo, GroupsKept, GroupsReady, Count, ChildSize, Unwritable;
    Partition(n, |hashes|, i);
    CoveredBound(n, |hashes|, i + 1);
  }

  lemma SameSectors(a: seq<Sector>, b: seq<Sector>)
    requires multiset(a) == multiset(b)
    ensures forall s :: s in a <==> s in b
  {
    forall s ensures s in a <==> s in b {
      assert s in a <==> s in multiset(a);
      assert s in b <==> s in multiset(b);
    }
  }

  /** A group whose list and then whose sector have been written is kept. */
  lemma GroupStored(c: Codec, a: Snapshot, b: Snapshot, slot: nat, taken: set<Sector>, key: Key, g: Group,
                    hdr: GroupHdr, sector: GroupSector, leaves: Leaves)
    requires Sized(c) && Step(a, b, slot, {hdr.loc}) && hdr.v.Some? && Paged(g)
    requires var g' := hdr.v.value;
      && g' == g.(pages := g'.pages, boot := sector.area.boot, sealValid := true)
      && |g'.pages| == |g.pages| && PagesWritten(g.pages, g'.pages, 0, |g.pages|)
      && PagesKept(c, a.disk, a.used[slot], key, g.keys.group, g'.pages, 0, |g.pages|)
      && Listed(c, a.disk, a.used[slot], key, Hashes(g'.pages), Locs(g'.pages), 0, |g.pages|,
                sector.area.hashes, sector.locs, leaves)
      && sector.area == GroupArea(g.id, g.details, g'.boot, g.nrVtpms, sector.area.hashes)
      && sector.mac == c.macGroup(g.keys.group, sector.area)
    requires multiset(hdr.inuse) == multiset(leaves.inuse)
    requires hdr.hash == c.hashGroup(sector.area, sector.mac)
    requires c.openGroup(key, Read(b.disk, hdr.loc)) == Some(sector)
    ensures GroupKept(c, b.disk, b.used[slot], key, hdr)
  {
    assert slot < |b.used| && Dynamic(hdr.loc) && hdr.loc in b.used[slot];
    hide Step, Resolve, PageKept, PageOk;
    var g' := hdr.v.value;
    ListedFrame(c, a, b, slot, {hdr.loc}, key, Hashes(g'.pages), Locs(g'.pages), 0, |g.pages|,
                sector.area.hashes, sector.locs, leaves);
    PagesKeptFrame(c, a, b, slot, {hdr.loc}, key, g.keys.group, g'.pages, 0, |g.pages|);
    assert Paged(g') by {
      forall k | 0 <= k < |g'.pages| ensures PageOk(g'.pages[k], VTPMS_PER_SECTOR * k) {
        SamePageOk(g.pages[k], g'.pages[k], VTPMS_PER_SECTOR * k);
      }
    }
    assert Matches(c, sector, leaves, g');
    assert KeptAs(c, b.disk, b.used[slot], key, hdr, sector, leaves);
  }

  lemma SamePageOk(page: Page, page': Page, base: nat)
    requires PageOk(page, base) && page'.vtpms == page.vtpms
    ensures PageOk(page', base)
  {
  }

  function HdrHashes(groups: seq<GroupHdr>): (r: seq<Digest>)
    ensures |r| == |groups|
  {
    seq(|groups|, i requires 0 <= i < |groups| => groups[i].hash)
  }

  function HdrLocs(groups: seq<GroupHdr>): (r: seq<Sector>)
    ensures |r| == |groups|
  {
    seq(|groups|, i requires 0 <= i < |groups| => groups[i].loc)
  }

  ghost predicate GroupsReady(c: Codec, disk: Disk, used: set<Sector>, key: Key, groups: seq<GroupHdr>, lo: nat,
                              hi: nat)
    requires Sized(c) && lo <= hi <= |groups|
  {
    forall i :: lo <= i < hi ==> GroupReady(c, disk, used, key, groups[i])
  }

  /** The group is kept, and if it was stale it is kept as it is in memory. */
  ghost predicate Refreshed(c: Codec, disk: Disk, used: set<Sector>, key: Key, was: GroupHdr, hdr: GroupHdr)
    requires Sized(c)
  {
    HdrKept(c, disk, used, key, hdr) && (was.loc == 0 ==> GroupKept(c, disk, used, key, hdr))
  }

  ghost predicate GroupsKept(c: Codec, disk: Disk, used: set<Sector>, key: Key, was: seq<GroupHdr>,
                             groups: seq<GroupHdr>, lo: nat, hi: nat)
    requires Sized(c) && lo <= hi <= |groups| == |was|
  {
    forall i :: lo <= i < hi ==> Refreshed(c, disk, used, key, was[i], groups[i])
  }

  ghost predicate GroupsWritten(c: Codec, groups: seq<GroupHdr>, groups': seq<GroupHdr>, lo: nat, hi: nat) {
    && lo <= hi <= |groups| == |groups'|
    && (forall i :: lo <= i < hi ==> GroupWritten(c, groups[i], groups'[i]))
    && (forall i :: 0 <= i < |groups| && !(lo <= i < hi) ==> groups'[i] == groups[i])
  }

  /** Every sector taken is one of the groups' own sectors or on one of their lists. */
  ghost predicate Accounted(taken: set<Sector>, groups: seq<GroupHdr>, lo: nat, hi: nat)
    requires lo <= hi <= |groups|
  {
    forall s :: s in taken ==> exists j :: lo <= j < hi && (s == groups[j].loc || s in groups[j].inuse)
  }

  /** The same when index sectors have been written too. */
  ghost predicate AccountedWith(taken: set<Sector>, nodes: seq<Sector>, groups: seq<GroupHdr>, lo: nat, hi: nat)
    requires lo <= hi <= |groups|
  {
    forall s :: s in taken ==> s in nodes || exists j :: lo <= j < hi && s in groups[j].inuse
  }

  lemma GroupsReadyFrame(c: Codec, a: Snapshot, b: Snapshot, slot: nat, taken: set<Sector>, key: Key,
                         groups: seq<GroupHdr>, lo: nat, hi: nat)
    requires Sized(c) && Step(a, b, slot, taken) && lo <= hi <= |groups|
    requires GroupsReady(c, a.disk, a.used[slot], key, groups, lo, hi)
    ensures GroupsReady(c, b.disk, b.used[slot], key, groups, lo, hi)
  {
    assert slot < |b.used|;
    hide Step, GroupReady;
    forall i | lo <= i < hi ensures GroupReady(c, b.disk, b.used[slot], key, groups[i]) {
      GroupReadyFrame(c, a, b, slot, taken, key, groups[i]);
    }
  }

  lemma GroupsKeptFrame(c: Codec, a: Snapshot, b: Snapshot, slot: nat, taken: set<Sector>, key: Key,
                        was: seq<GroupHdr>, groups: seq<GroupHdr>, lo: nat, hi: nat)
    requires Sized(c) && Step(a, b, slot, taken) && lo <= hi <= |groups| == |was|
    requires GroupsKept(c, a.disk, a.used[slot], key, was, groups, lo, hi)
    ensures GroupsKept(c, b.disk, b.used[slot], key, was, groups, lo, hi)
  {
    StepPreserves(a, b, slot, taken);
    hide Step, Refreshed;
    forall i | lo <= i < hi ensures Refreshed(c, b.disk, b.used[slot], key, was[i], groups[i]) {
      RefreshedMove(c, a.disk, a.used[slot], b.disk, b.used[slot], key, was[i], groups[i]);
    }
  }

  lemma RefreshedMove(c: Codec, a: Disk, used: set<Sector>, b: Disk, used': set<Sector>, key: Key, was: GroupHdr,
                      hdr: GroupHdr)
    requires Sized(c) && Preserves(a, used, b, used') && Refreshed(c, a, used, key, was, hdr)
    ensures Refreshed(c, b, used', key, was, hdr)
  {
    hide GroupKept, HdrKept;
    HdrKeptMove(c, a, used, b, used', key, hdr);
    if was.loc == 0 {
      GroupKeptMove(c, a, used, b, used', key, hdr);
    }
  }

  /** The first i of n groups have been written. */
  ghost predicate GroupLeafState(c: Codec, now: Snapshot, slot: nat, key: Key, groups: seq<GroupHdr>,
                                 groups': seq<GroupHdr>, base: nat, i: nat, n: nat, taken: set<Sector>)
    requires Sized(c)
  {
    && slot < |now.used| && i <= n && base + n <= |groups|
    && GroupsWritten(c, groups, groups', base, base + i)
    && GroupsKept(c, now.disk, now.used[slot], key, groups, groups', base, base + i)
    && GroupsReady(c, now.disk, now.used[slot], key, groups', base + i, base + n)
    && Accounted(taken, groups', base, base + i)
  }

  lemma GroupLeafStart(c: Codec, now: Snapshot, slot: nat, key: Key, groups: seq<GroupHdr>, base: nat, n: nat)
    requires Sized(c) && slot < |now.used| && base + n <= |groups|
    requires GroupsReady(c, now.disk, now.used[slot], key, groups, base, base + n)
    ensures GroupLeafState(c, now, slot, key, groups, groups, base, 0, n, {})
  {
    hide GroupReady;
  }

  lemma GroupLeafNext(c: Codec, now: Snapshot, slot: nat, key: Key, groups: seq<GroupHdr>, groups': seq<GroupHdr>,
                      base: nat, i: nat, n: nat, taken: set<Sector>)
    requires Sized(c) && GroupLeafState(c, now, slot, key, groups, groups', base, i, n, taken) && i < n
    ensures |groups'| == |groups| && base + i < |groups|
    ensures GroupReady(c, now.disk, now.used[slot], key, groups'[base + i]) && groups'[base + i] == groups[base + i]
  {
    hide GroupReady, Refreshed;
  }

  lemma GroupLeafStep(c: Codec, a: Snapshot, b: Snapshot, slot: nat, key: Key, groups: seq<GroupHdr>,
                      was: seq<GroupHdr>, hdr: GroupHdr, base: nat, i: nat, n: nat, taken: set<Sector>, t: set<Sector>)
    requires Sized(c) && Step(a, b, slot, t)
    requires GroupLeafState(c, a, slot, key, groups, was, base, i, n, taken) && i < n && |was| == |groups|
    requires GroupWritten(c, was[base + i], hdr) && Refreshed(c, b.disk, b.used[slot], key, was[base + i], hdr)
    requires forall s :: s in t ==> s == hdr.loc || s in hdr.inuse
    ensures GroupLeafState(c, b, slot, key, groups, was[base + i := hdr], base, i + 1, n, taken + t)
  {
    hide Refreshed, GroupReady, GroupWritten, Accounted;
    assert slot < |b.used|;
    hide Step;
    assert Accounted(taken, was, base, base + i);
    AccountedNext(was, hdr, base, i, taken, t);
    GroupsKeptFrame(c, a, b, slot, t, key, groups, was, base, base + i);
    GroupsReadyFrame(c, a, b, slot, t, key, was, base + i, base + n);
    var groups' := was[base + i := hdr];
    assert GroupsKept(c, b.disk, b.used[slot], key, groups, groups', base, base + i + 1);
    assert GroupsReady(c, b.disk, b.used[slot], key, groups', base + i + 1, base + n);
    hide GroupsKept, GroupsReady;
    assert was[base + i] == groups[base + i];
    assert GroupsWritten(c, groups, groups', base, base + i + 1);
  }

  lemma AccountedNext(was: seq<GroupHdr>, hdr: GroupHdr, base: nat, i: nat, taken: set<Sector>, t: set<Sector>)
    requires base + i < |was| && Accounted(taken, was, base, base + i)
    requires forall s :: s in t ==> s == hdr.loc || s in hdr.inuse
    ensures Accounted(taken + t, was[base + i := hdr], base, base + i + 1)
  {
    var groups' := was[base + i := hdr];
    forall s | s in taken + t
      ensures exists j :: base <= j < base + i + 1 && (s == groups'[j].loc || s in groups'[j].inuse)
    {
      if s in t {
        assert s == groups'[base + i].loc || s in groups'[base + i].inuse;
      } else {
        var j :| base <= j < base + i && (s == was[j].loc || s in was[j].inuse);
        assert s == groups'[j].loc || s in groups'[j].inuse;
      }
    }
  }

  lemma GroupLeafEnd(c: Codec, now: Snapshot, slot: nat, key: Key, groups: seq<GroupHdr>, groups': seq<GroupHdr>,
                     base: nat, n: nat, taken: set<Sector>)
    requires Sized(c) && GroupLeafState(c, now, slot, key, groups, groups', base, n, n, taken)
    ensures |groups'| == |groups| && GroupsWritten(c, groups, groups', base, base + n)
    ensures GroupsKept(c, now.disk, now.used[slot], key, groups, groups', base, base + n)
    ensures Accounted(taken, groups', base, base + n)
  {
  }

  lemma GroupLeafListed(c: Codec, disk: Disk, used: set<Sector>, key: Key, was: seq<GroupHdr>, groups: seq<GroupHdr>,
                        base: nat, n: nat, hashes: seq<Digest>, locs: seq<Sector>, taken: set<Sector>)
    requires Sized(c) && base + n <= |groups| == |was| && n <= |hashes| == |locs| && |hashes| > 0
    requires GroupsKept(c, disk, used, key, was, groups, base, base + n)
    requires hashes[..n] == HdrHashes(groups)[base..base + n] && locs[..n] == HdrLocs(groups)[base..base + n]
    requires Accounted(taken, groups, base, base + n)
    ensures Listed(c, disk, used, key, HdrHashes(groups), HdrLocs(groups), base, n, hashes, locs,
                   Leaves(hashes[..n], locs[..n], locs[..n]))
    ensures AccountedWith(taken, locs[..n], groups, base, base + n)
  {
    hide Resolve, HdrKept, GroupKept, Dynamic;
    var part := HdrLocs(groups)[base..base + n];
    forall s | s in part ensures Dynamic(s) && s in used {
      var j :| 0 <= j < n && part[j] == s;
      assert Refreshed(c, disk, used, key, was[base + j], groups[base + j]);
      KeptLoc(c, disk, used, key, groups[base + j]);
    }
    hide Refreshed, GroupsKept;
    ListedLeaf(c, disk, used, key, HdrHashes(groups), HdrLocs(groups), base, n, hashes, locs);
    forall s | s in taken ensures s in locs[..n] || exists j :: base <= j < base + n && s in groups[j].inuse {
      var j :| base <= j < base + n && (s == groups[j].loc || s in groups[j].inuse);
      assert HdrLocs(groups)[base..base + n][j - base] == groups[j].loc;
    }
  }

  lemma KeptLoc(c: Codec, disk: Disk, used: set<Sector>, key: Key, hdr: GroupHdr)
    requires Sized(c) && HdrKept(c, disk, used, key, hdr)
    ensures Dynamic(hdr.loc) && hdr.loc in used
  {
  }

  /** The first i children of a level have been written. */
  ghost predicate GroupTreeState(c: Codec, now: Snapshot, slot: nat, key: Key, groups: seq<GroupHdr>,
                                 groups': seq<GroupHdr>, base: nat, n: nat, hashes: seq<Digest>, locs: seq<Sector>,
                                 i: nat, leaves: Leaves, taken: set<Sector>)
    requires Sized(c)
  {
    && slot < |now.used| && base + n <= |groups| == |groups'| && |hashes| > 0
    && ListedUpTo(c, now.disk, now.used[slot], key, HdrHashes(groups'), HdrLocs(groups'), base, n, hashes, locs, i,
                  leaves)
    && (var done := base + Covered(n, |hashes|, i);
        && GroupsWritten(c, groups, groups', base, done)
        && GroupsKept(c, now.disk, now.used[slot], key, groups, groups', base, done)
        && GroupsReady(c, now.disk, now.used[slot], key, groups', done, base + n)
        && AccountedWith(taken, locs[..i] + leaves.inuse, groups', base, done))
  }

  lemma GroupTreeStart(c: Codec, now: Snapshot, slot: nat, key: Key, groups: seq<GroupHdr>, base: nat, n: nat,
                       hashes: seq<Digest>, locs: seq<Sector>)
    requires Sized(c) && slot < |now.used| && base + n <= |groups| && 0 < |hashes| == |locs| < n
    requires GroupsReady(c, now.disk, now.used[slot], key, groups, base, base + n)
    ensures GroupTreeState(c, now, slot, key, groups, groups, base, n, hashes, locs, 0, Leaves([], [], []), {})
  {
    hide GroupReady, Refreshed, Count;
    CountBound(n, |hashes|);
  }

  lemma GroupTreeNext(c: Codec, now: Snapshot, slot: nat, key: Key, groups: seq<GroupHdr>, groups': seq<GroupHdr>,
                      base: nat, n: nat, hashes: seq<Digest>, locs: seq<Sector>, i: nat, leaves: Leaves,
                      taken: set<Sector>)
    requires Sized(c) && |hashes| > 0 && i < Count(n, |hashes|)
    requires GroupTreeState(c, now, slot, key, groups, groups', base, n, hashes, locs, i, leaves, taken)
    ensures var lo, m := base + Covered(n, |hashes|, i), ChildSize(n, |hashes|, i);
      lo + m <= base + n <= |groups'| && GroupsReady(c, now.disk, now.used[slot], key, groups', lo, lo + m)
  {
    hide GroupReady, Refreshed, ListedUpTo, Count, Covered, ChildSize;
    Partition(n, |hashes|, i);
    CoveredBound(n, |hashes|, i + 1);
  }

  lemma GroupLeafArrays(groups: seq<GroupHdr>, base: nat, n: nat, hashes: seq<Digest>, locs: seq<Sector>)
    requires base + n <= |groups| && n <= |hashes| == |locs|
    requires forall j :: 0 <= j < n ==> hashes[j] == groups[base + j].hash && locs[j] == groups[base + j].loc
    ensures hashes[..n] == HdrHashes(groups)[base..base + n] && locs[..n] == HdrLocs(groups)[base..base + n]
  {
  }

  lemma GroupTreeStep(c: Codec, a: Snapshot, b: Snapshot, d: Snapshot, slot: nat, key: Key, groups: seq<GroupHdr>,
                      was: seq<GroupHdr>, groups': seq<GroupHdr>, base: nat, n: nat, hashes: seq<Digest>,
                      locs: seq<Sector>, i: nat, leaves: Leaves, taken: set<Sector>, t1: set<Sector>,
                      node: ItreeSector, below: Leaves, s: Sector)
    requires Sized(c) && |hashes| == |locs| > 0 && i < Count(n, |hashes|) <= |hashes|
    requires GroupTreeState(c, a, slot, key, groups, was, base, n, hashes, locs, i, leaves, taken)
    requires Step(a, b, slot, t1) && Step(b, d, slot, {s})
    requires var lo, m := base + Covered(n, |hashes|, i), ChildSize(n, |hashes|, i);
      && lo + m <= |groups'| && GroupsWritten(c, was, groups', lo, lo + m)
      && GroupsKept(c, b.disk, b.used[slot], key, was, groups', lo, lo + m)
      && Listed(c, b.disk, b.used[slot], key, HdrHashes(groups'), HdrLocs(groups'), lo, m, node.hashes, node.locs,
                below)
      && AccountedWith(t1, below.inuse, groups', lo, lo + m)
    requires c.openItree(key, Read(d.disk, s)) == Some(node) && Dynamic(s) && s in d.used[slot]
    ensures GroupTreeState(c, d, slot, key, groups, groups', base, n, hashes[i := c.hashItree(node.hashes)],
                           locs[i := s], i + 1, Append(leaves, below), taken + t1 + {s})
  {
    hide GroupsWritten, Count, Covered, ChildSize, Listed, ListedUpTo, GroupsKept, GroupsReady, AccountedWith, Step,
         HdrHashes, HdrLocs, Dynamic;
    StepSlots(b, d, slot, {s});
    GroupTreeStepGroups(c, a, b, d, slot, key, groups, was, groups', base, n, hashes, locs, i, leaves, taken, t1, s);
    GroupTreeStepList(c, a, b, d, slot, key, groups, was, groups', base, n, hashes, locs, i, leaves, taken, t1, node,
                      below, s);
    Partition(n, |hashes|, i);
    GroupTreeAccount(c, was, groups', base, base + Covered(n, |hashes|, i), ChildSize(n, |hashes|, i), locs, i, leaves,
                     taken, t1, below, s);
  }

  /** The sectors of the children so far, with one more. */
  lemma GroupTreeAccount(c: Codec, was: seq<GroupHdr>, groups': seq<GroupHdr>, base: nat, lo: nat, m: nat,
                         locs: seq<Sector>, i: nat, leaves: Leaves, taken: set<Sector>, t1: set<Sector>,
                         below: Leaves, s: Sector)
    requires base <= lo && lo + m <= |groups'| == |was| && i < |locs|
    requires GroupsWritten(c, was, groups', lo, lo + m)
    requires AccountedWith(taken, locs[..i] + leaves.inuse, was, base, lo)
    requires AccountedWith(t1, below.inuse, groups', lo, lo + m)
    ensures AccountedWith(taken + t1 + {s}, locs[i := s][..i + 1] + Append(leaves, below).inuse, groups', base, lo + m)
  {
    hide GroupWritten;
    var locs', all := locs[i := s], Append(leaves, below);
    assert locs'[..i + 1] == locs[..i] + [s];
    forall x | x in taken + t1 + {s}
      ensures x in locs'[..i + 1] + all.inuse || exists j :: base <= j < lo + m && x in groups'[j].inuse
    {
      if x in taken && !(x in locs[..i] + leaves.inuse) {
        var j :| base <= j < lo && x in was[j].inuse;
        assert x in groups'[j].inuse;
      } else if x in t1 && x !in below.inuse {
        var j :| lo <= j < lo + m && x in groups'[j].inuse;
      }
    }
  }

  lemma GroupTreeStepGroups(c: Codec, a: Snapshot, b: Snapshot, d: Snapshot, slot: nat, key: Key,
                            groups: seq<GroupHdr>, was: seq<GroupHdr>, groups': seq<GroupHdr>, base: nat, n: nat,
                            hashes: seq<Digest>, locs: seq<Sector>, i: nat, leaves: Leaves, taken: set<Sector>,
                            t1: set<Sector>, s: Sector)
    requires Sized(c) && |hashes| == |locs| > 0 && i < Count(n, |hashes|) <= |hashes|
    requires GroupTreeState(c, a, slot, key, groups, was, base, n, hashes, locs, i, leaves, taken)
    requires Step(a, b, slot, t1) && Step(b, d, slot, {s})
    requires var lo, m := base + Covered(n, |hashes|, i), ChildSize(n, |hashes|, i);
      && lo + m <= |groups'| && GroupsWritten(c, was, groups', lo, lo + m)
      && GroupsKept(c, b.disk, b.used[slot], key, was, groups', lo, lo + m)
    ensures slot < |d.used| && base + n <= |groups| == |groups'|
    ensures var done := base + Covered(n, |hashes|, i + 1);
      && done <= base + n && GroupsWritten(c, groups, groups', base, done)
      && GroupsKept(c, d.disk, d.used[slot], key, groups, groups', base, done)
      && GroupsReady(c, d.disk, d.used[slot], key, groups', done, base + n)
  {
    assert slot < |d.used|;
    StepTrans(a, b, d, slot, t1, {s});
    hide Step, Refreshed, GroupReady, GroupWritten, Count, Covered, ChildSize, ListedUpTo, AccountedWith;
    Partition(n, |hashes|, i);
    CoveredBound(n, |hashes|, i + 1);
    var lo, m := base + Covered(n, |hashes|, i), ChildSize(n, |hashes|, i);
    GroupsKeptFrame(c, a, d, slot, t1 + {s}, key, groups, was, base, lo);
    GroupsKeptFrame(c, b, d, slot, {s}, key, was, groups', lo, lo + m);
    GroupsReadyFrame(c, a, d, slot, t1 + {s}, key, was, lo, base + n);
  }

  lemma GroupTreeStepList(c: Codec, a: Snapshot, b: Snapshot, d: Snapshot, slot: nat, key: Key,
                          groups: seq<GroupHdr>, was: seq<GroupHdr>, groups': seq<GroupHdr>, base: nat, n: nat,
                          hashes: seq<Digest>, locs: seq<Sector>, i: nat, leaves: Leaves, taken: set<Sector>,
                          t1: set<Sector>, node: ItreeSector, below: Leaves, s: Sector)
    requires Sized(c) && |hashes| == |locs| > 0 && i < Count(n, |hashes|) <= |hashes|
    requires GroupTreeState(c, a, slot, key, groups, was, base, n, hashes, locs, i, leaves, taken)
    requires Step(a, b, slot, t1) && Step(b, d, slot, {s})
    requires var lo, m := base + Covered(n, |hashes|, i), ChildSize(n, |hashes|, i);
      && lo + m <= |groups'| && GroupsWritten(c, was, groups', lo, lo + m)
      && Listed(c, b.disk, b.used[slot], key, HdrHashes(groups'), HdrLocs(groups'), lo, m, node.hashes, node.locs,
                below)
    requires c.openItree(key, Read(d.disk, s)) == Some(node) && Dynamic(s) && s in d.used[slot]
    ensures ListedUpTo(c, d.disk, d.used[slot], key, HdrHashes(groups'), HdrLocs(groups'), base, n,
                       hashes[i := c.hashItree(node.hashes)], locs[i := s], i + 1, Append(leaves, below))
  {
    hide Step, Count, Covered, ChildSize, Listed, ListedUpTo, GroupsKept, GroupsReady, GroupsWritten, AccountedWith,
         HdrHashes, HdrLocs, Dynamic, Append;
    StepSlots(b, d, slot, {s});
    StepTrans(a, b, d, slot, t1, {s});
    var lo, m := base + Covered(n, |hashes|, i), ChildSize(n, |hashes|, i);
    var hashes', locs' := hashes[i := c.hashItree(node.hashes)], locs[i := s];
    SameHdrs(c, was, groups', lo, m);
    hide GroupTreeState;
    ListedUpToFrame(c, a, d, slot, t1 + {s}, key, HdrHashes(was), HdrLocs(was), HdrHashes(groups'), HdrLocs(groups'),
                    base, n, hashes, locs, hashes', locs', i, leaves);
    ListedFrame(c, b, d, slot, {s}, key, HdrHashes(groups'), HdrLocs(groups'), lo, m, node.hashes, node.locs, below);
    ListedNext(c, d.disk, d.used[slot], key, HdrHashes(groups'), HdrLocs(groups'), base, n, hashes', locs', i, leaves,
               node, below);
  }

  lemma SameHdrs(c: Codec, was: seq<GroupHdr>, groups: seq<GroupHdr>, lo: nat, m: nat)
    requires lo + m <= |groups| && GroupsWritten(c, was, groups, lo, lo + m)
    ensures |was| == |groups| && HdrHashes(groups)[..lo] == HdrHashes(was)[..lo]
    ensures HdrLocs(groups)[..lo] == HdrLocs(was)[..lo]
  {
    hide GroupWritten;
  }

  lemma GroupTreeEnd(c: Codec, now: Snapshot, slot: nat, key: Key, groups: seq<GroupHdr>, groups': seq<GroupHdr>,
                     base: nat, n: nat, hashes: seq<Digest>, locs: seq<Sector>, leaves: Leaves, taken: set<Sector>)
    requires Sized(c) && |hashes| > 0
    requires GroupTreeState(c, now, slot, key, groups, groups', base, n, hashes, locs, Count(n, |hashes|), leaves,
                            taken)
    ensures |groups'| == |groups| && base + n <= |groups| && GroupsWritten(c, groups, groups', base, base + n)
    ensures GroupsKept(c, now.disk, now.used[slot], key, groups, groups', base, base + n)
    ensures ListedUpTo(c, now.disk, now.used[slot], key, HdrHashes(groups'), HdrLocs(groups'), base, n, hashes, locs,
                       Count(n, |hashes|), leaves)
    ensures Count(n, |hashes|) <= |locs|
    ensures AccountedWith(taken, locs[..Count(n, |hashes|)] + leaves.inuse, groups', base, base + n)
  {
    hide Refreshed, GroupReady, GroupWritten, ResolveUpTo, Count, Covered;
    CountBound(n, |hashes|);
  }

  /** Up to ENTRIES_PER_ITREE entries a root needs a single index sector, which lists them all. */
  lemma OneChild(n: nat, hsize: nat)
    requires hsize == ENTRIES_PER_ROOT || hsize == ENTRIES_PER_ITREE
    requires n > hsize
    ensures n <= ENTRIES_PER_ITREE ==> Count(n, hsize) == 1 && ChildSize(n, hsize, 0) == n
    ensures Count(n, hsize) > 0 && Covered(n, hsize, 0) == 0
  {
    Started(n, Incr(n, hsize), 0);
    if hsize == ENTRIES_PER_ROOT && n <= ENTRIES_PER_ITREE {
      assert IncrFrom(n, hsize, ENTRIES_PER_ITREE) == ENTRIES_PER_ITREE;
      Started(n, Incr(n, hsize), 1);
    }
  }
}
