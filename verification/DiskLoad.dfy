/**
 What loading a disk computes, as functions of the disk.  `fixed` selects how the pages of a leaf are
 placed in memory: with it each page gets its own slot; without it, as the code is written, the page
 pointer never advances and every page of a leaf is stored into the leaf's first slot.
 */
module DiskLoad {
  import opened Wrappers
  import opened DiskFormat
  import opened IndexTree

  const EMPTY_PAGE: Page := Page([], 0, [])

  /** vTPMs on the page that starts at number base. */
  function PageSize(nrVtpms: nat, base: nat): (r: nat)
    requires base <= nrVtpms
    ensures r <= VTPMS_PER_SECTOR
  {
    if nrVtpms - base > VTPMS_PER_SECTOR then VTPMS_PER_SECTOR else nrVtpms - base
  }

  /** The vTPMs of an opened page. */
  function Decode(c: Codec, groupKey: Key, sector: PageSector, size: nat, base: nat): (r: seq<Vtpm>)
    requires size <= VTPMS_PER_SECTOR && |c.unwrap(groupKey, sector.body)| == VTPMS_PER_SECTOR
    ensures |r| == size
  {
    var data := c.unwrap(groupKey, sector.body);
    seq(size, i requires 0 <= i < size =>
      Vtpm(sector.headers[i].uuid, data[i], sector.headers[i].flags, base + i))
  }

  /** One page: its sector must verify; its vTPMs are read only when the group is open. */
  function LoadPage(c: Codec, disk: Disk, key: Key, groupKey: Option<Key>, hash: Digest, loc: Sector,
                    size: nat, base: nat): (r: Option<Page>)
    requires size <= VTPMS_PER_SECTOR
    requires groupKey.Some? ==> forall b :: |c.unwrap(groupKey.value, b)| == VTPMS_PER_SECTOR
  {
    var sector := c.openPage(key, Read(disk, loc));
    if sector.None? || c.hashPage(sector.value) != hash then None
    else if groupKey.None? then Some(Page(hash, loc, []))
    else Some(Page(hash, loc, Decode(c, groupKey.value, sector.value, size, base)))
  }

  /** The first k pages of a group's list. */
  function LoadPages(c: Codec, disk: Disk, key: Key, groupKey: Option<Key>, leaves: Leaves, nrVtpms: nat,
                     k: nat): (r: Option<seq<Page>>)
    requires k <= |leaves.hashes| == |leaves.locs| == PagesFor(nrVtpms)
    requires groupKey.Some? ==> forall b :: |c.unwrap(groupKey.value, b)| == VTPMS_PER_SECTOR
    ensures r.Some? ==> |r.value| == k
  {
    if k == 0 then Some([])
    else
      var before := LoadPages(c, disk, key, groupKey, leaves, nrVtpms, k - 1);
      var base := VTPMS_PER_SECTOR * (k - 1);
      var page := LoadPage(c, disk, key, groupKey, leaves.hashes[k - 1], leaves.locs[k - 1],
                           PageSize(nrVtpms, base), base);
      if before.None? || page.None? then None else Some(before.value + [page.value])
  }

  /** Number of pages that share a leaf of the tree. */
  function LeafPages(n: nat): (r: nat)
    ensures r > 0
  {
    if n <= ENTRIES_PER_GROUP then ENTRIES_PER_GROUP else ENTRIES_PER_ITREE
  }

  /** Where the pages end up in memory. */
  function Place(fixed: bool, pages: seq<Page>): (r: seq<Page>)
    ensures |r| == |pages|
  {
    if fixed then pages
    else
      var leaf := LeafPages(|pages|);
      seq(|pages|, i requires 0 <= i < |pages| =>
        if i % leaf != 0 then EMPTY_PAGE
        else if i + leaf <= |pages| then pages[i + leaf - 1]
        else pages[|pages| - 1])
  }

  function LoadGroup(c: Codec, tpm: Tpm, disk: Disk, keys: RootKeys, fixed: bool, hash: Digest, loc: Sector)
    : (r: Option<GroupHdr>)
    requires Sized(c)
  {
    var sector := c.openGroup(keys.tm, Read(disk, loc));
    if sector.None? then None
    else LoadGroupSector(c, tpm, disk, keys, fixed, hash, loc, sector.value)
  }

  /** Secret data always unwraps to one record per slot. */
  ghost predicate Sized(c: Codec) {
    forall k, b :: |c.unwrap(k, b)| == VTPMS_PER_SECTOR
  }

  function LoadGroupSector(c: Codec, tpm: Tpm, disk: Disk, keys: RootKeys, fixed: bool, hash: Digest,
                           loc: Sector, sector: GroupSector): (r: Option<GroupHdr>)
    requires Sized(c)
  {
    var area := sector.area;
    var unsealed := tpm.unsealGroup(keys.uuid, area.boot);
    if c.hashGroup(area, sector.mac) != hash || unsealed.Broken? then None
    else if unsealed.Opened? && c.macGroup(unsealed.keys.group, area) != sector.mac then None
    else
      var groupKey := if unsealed.Opened? then Some(unsealed.keys.group) else None;
      var n := PagesFor(area.nrVtpms);
      var leaves := Resolve(c, disk, keys.tm, n, ENTRIES_PER_GROUP, area.hashes, sector.locs);
      if leaves.None? then None
      else
        var pages := LoadPages(c, disk, keys.tm, groupKey, leaves.value, area.nrVtpms, n);
        if pages.None? then None
        else if unsealed.Locked? then Some(GroupHdr(loc, hash, leaves.value.inuse, None))
        else
          var group := Group(area.id, area.details, unsealed.keys, area.nrVtpms, Place(fixed, pages.value),
                             unsealed.nrSeals, true, area.boot);
          Some(GroupHdr(loc, hash, leaves.value.inuse, Some(group)))
  }

  /** The first k groups of the root's list. */
  function LoadGroups(c: Codec, tpm: Tpm, disk: Disk, keys: RootKeys, fixed: bool, leaves: Leaves, k: nat)
    : (r: Option<seq<GroupHdr>>)
    requires Sized(c) && k <= |leaves.hashes| == |leaves.locs|
    ensures r.Some? ==> |r.value| == k
  {
    if k == 0 then Some([])
    else
      var before := LoadGroups(c, tpm, disk, keys, fixed, leaves, k - 1);
      var hdr := LoadGroup(c, tpm, disk, keys, fixed, leaves.hashes[k - 1], leaves.locs[k - 1]);
      if before.None? || hdr.None? then None else Some(before.value + [hdr.value])
  }

  /** Marks an open group as possibly rolled back, which makes its sector stale. */
  function FlagRollback(hdr: GroupHdr): (r: GroupHdr)
    requires hdr.v.Some?
  {
    var g := hdr.v.value;
    if g.details.rollback then hdr
    else hdr.(loc := 0, v := Some(g.(details := g.details.(rollback := true))))
  }

  /** The two-pointer scan over groups (from i) and rollback MACs (from j).  None: it reads an entry
      past the end of the table. */
  function Scan(c: Codec, root: RootSector, groups: seq<GroupHdr>, i: nat, j: nat): (r: Option<seq<GroupHdr>>)
    requires i <= |groups| && j <= RB_MACS_PER_ROOT
    ensures r.Some? ==> |r.value| == |groups|
    decreases |groups| - i, RB_MACS_PER_ROOT - j
  {
    if i == |groups| then Some(groups)
    else if groups[i].v.None? then Scan(c, root, groups, i + 1, j)
    else if j == RB_MACS_PER_ROOT then None
    else if root.macs[j].id < i then Scan(c, root, groups, i, j + 1)
    else if j >= root.nrMacs || root.macs[j].id != i then
      Scan(c, root, groups[i := FlagRollback(groups[i])], i + 1, j)
    else if root.macs[j].mac != c.macRoot(groups[i].v.value.keys.rollback, root.area) then
      Scan(c, root, groups[i := FlagRollback(groups[i])], i + 1, j + 1)
    else Scan(c, root, groups, i + 1, j + 1)
  }

  datatype Outcome = Loaded(m: Manager) | Rejected | OutOfBounds

  /** load_root_post. */
  function LoadRoot(c: Codec, tpm: Tpm, disk: Disk, keys: RootKeys, fixed: bool, slot: nat, root: RootSector)
    : (r: Outcome)
    requires Sized(c)
  {
    var area := root.area;
    var leaves := Resolve(c, disk, keys.tm, area.nrGroups, ENTRIES_PER_ROOT, area.hashes, root.locs);
    if !tpm.counterOk(area.counter) || area.nrGroups == 0 || leaves.None? then Rejected
    else
      var groups := LoadGroups(c, tpm, disk, keys, fixed, leaves.value, area.nrGroups);
      if groups.None? || groups.value[0].v.None? || root.nrMacs > RB_MACS_PER_ROOT then Rejected
      else
        var scanned := Scan(c, root, groups.value, 0, 0);
        if scanned.None? then OutOfBounds
        else Loaded(Manager(keys, area.counter, area.sequence, slot, scanned.value))
  }

  datatype Candidate = Candidate(keys: RootKeys, root: RootSector)

  /** A slot's seal list and root sector, if both open. */
  function FindRoot(c: Codec, tpm: Tpm, disk: Disk, slot: nat): (r: Option<Candidate>) {
    var keys := UnsealRoot(c, tpm, Read(disk, slot));
    if keys.None? then None
    else
      var root := c.openRoot(keys.value.tm, Read(disk, 2 + slot));
      if root.None? then None else Some(Candidate(keys.value, root.value))
  }

  function Try(c: Codec, tpm: Tpm, disk: Disk, fixed: bool, slot: nat): (r: Outcome)
    requires Sized(c)
  {
    var candidate := FindRoot(c, tpm, disk, slot);
    if candidate.None? then Rejected
    else LoadRoot(c, tpm, disk, candidate.value.keys, fixed, slot, candidate.value.root)
  }

  /** A root that loads yields a manager for its own slot and keys. */
  lemma TrySlot(c: Codec, tpm: Tpm, disk: Disk, fixed: bool, slot: nat)
    requires Sized(c)
    ensures var r := Try(c, tpm, disk, fixed, slot);
      r.Loaded? ==> r.m.activeRoot == slot && FindRoot(c, tpm, disk, slot).Some?
                    && r.m.keys == FindRoot(c, tpm, disk, slot).value.keys
  {
    hide FindRoot;
  }

  function Sequence(c: Codec, tpm: Tpm, disk: Disk, slot: nat): (r: nat)
    requires FindRoot(c, tpm, disk, slot).Some?
  {
    FindRoot(c, tpm, disk, slot).value.root.area.sequence
  }

  /** vtpm_load_disk: the second slot goes first only if both roots open and it is newer. */
  function Load(c: Codec, tpm: Tpm, disk: Disk, fixed: bool): (r: Outcome)
    requires Sized(c)
  {
    if FindRoot(c, tpm, disk, 0).Some? && FindRoot(c, tpm, disk, 1).Some?
       && Sequence(c, tpm, disk, 1) > Sequence(c, tpm, disk, 0)
    then
      var second := Try(c, tpm, disk, fixed, 1);
      if second.Rejected? then Try(c, tpm, disk, fixed, 0) else second
    else
      var first := Try(c, tpm, disk, fixed, 0);
      if first.Rejected? then Try(c, tpm, disk, fixed, 1) else first
  }

  /** What loads is what the slot of the resulting manager holds. */
  lemma LoadedTry(c: Codec, tpm: Tpm, disk: Disk, fixed: bool)
    requires Sized(c) && Load(c, tpm, disk, fixed).Loaded?
    ensures var r := Load(c, tpm, disk, fixed);
      && r.m.activeRoot < 2 && r == Try(c, tpm, disk, fixed, r.m.activeRoot)
      && FindRoot(c, tpm, disk, r.m.activeRoot).Some? && r.m.keys == FindRoot(c, tpm, disk, r.m.activeRoot).value.keys
  {
    hide FindRoot, Try;
    TrySlot(c, tpm, disk, fixed, 0);
    TrySlot(c, tpm, disk, fixed, 1);
  }

  /** Whichever slot it is, the one with the newer root goes first. */
  lemma LoadPrefersNewer(c: Codec, tpm: Tpm, disk: Disk, fixed: bool, slot: nat)
    requires Sized(c) && slot < 2 && FindRoot(c, tpm, disk, slot).Some?
    requires FindRoot(c, tpm, disk, 1 - slot).None?
          || Sequence(c, tpm, disk, 1 - slot) < Sequence(c, tpm, disk, slot)
    ensures Load(c, tpm, disk, fixed) ==
      var newer := Try(c, tpm, disk, fixed, slot);
      if newer.Rejected? then Try(c, tpm, disk, fixed, 1 - slot) else newer
  {
    hide LoadRoot, FindRoot;
    if slot == 0 {
      assert 1 - slot == 1;
    } else {
      assert slot == 1 && 1 - slot == 0;
    }
  }
}
