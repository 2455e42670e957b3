/**
 The store: memory, device and the sync that brings the device up to date.
 */
module Sync {
  import opened Wrappers
  import opened Bytes
  import opened DiskFormat
  import opened IndexTree
  import opened DiskLoad
  import opened LoadLaws
  import opened Crash
  import opened DiskIo
  import opened Stored
  import opened DiskWrite
  import opened GroupWrite
  import opened Populate
  import opened Rollback
  import opened Reload

  const MAX_SEALS_PER_ROOT: nat := 13

  /** Memory and disk agree on the group wherever memory says that the disk is up to date; only an open
      group is ever stale. */
  ghost predicate Coherent(c: Codec, disk: Disk, key: Key, hdr: GroupHdr)
    requires Sized(c)
  {
    && (hdr.loc == 0 ==> hdr.v.Some?)
    && GroupReady(c, disk, AllDynamic(), key, hdr)
  }

  /** The disk keeps the group as it is in memory. */
  ghost predicate InSync(c: Codec, disk: Disk, key: Key, hdr: GroupHdr)
    requires Sized(c)
  {
    GroupKept(c, disk, AllDynamic(), key, hdr)
  }

  /** The groups whose stored version is now the one in memory are those that were marked stale and those
      of which that was true already. */
  ghost predicate BroughtUp(c: Codec, a: Disk, b: Disk, key: Key, was: seq<GroupHdr>, groups: seq<GroupHdr>)
    requires Sized(c)
  {
    && |groups| == |was|
    && forall i :: 0 <= i < |was| ==> (InSync(c, b, key, groups[i]) <==> was[i].loc == 0 || InSync(c, a, key, was[i]))
  }

  /** What can keep a root from being written: no sector is free, a group cannot be written, or, as the code
      is written, there are more groups than fit into one index sector. */
  ghost predicate Blocked(now: Snapshot, fixed: bool, groups: seq<GroupHdr>) {
    Full(now) || (!fixed && |groups| > ENTRIES_PER_ITREE) || SomeUnwritable(groups, 0, |groups|)
  }

  /** Every write of a sync goes to the slot's own seal list or root, or to a dynamic sector that the
      other slot does not use; the root sector opens to the given root. */
  ghost predicate LogShape(c: Codec, key: Key, slot: nat, other: set<Sector>, log: seq<Write>, root: RootSector) {
    forall w :: w in log ==>
      || w.sector == slot
      || (w.sector == 2 + slot && c.openRoot(key, w.blob) == Some(root))
      || (Dynamic(w.sector) && w.sector !in other)
  }

  function SealRoot(c: Codec, key: Key, iv: Blob, root: RootSector): (r: Blob)
    ensures Faithful(c) ==> c.openRoot(key, r) == Some(root)
  {
    c.sealRoot(key, iv, root)
  }

  /** What the TPM makes of the keys for configuration i of a group, with random bytes of its own. */
  type Sealer = (RootKeys, Group, nat, Blob) -> Blob

  function SealEntry(seal: Sealer, keys: RootKeys, g: Group, i: nat, random: Blob): (r: Blob)
    ensures EntryFor(seal, keys, g, i, r)
  {
    seal(keys, g, i, random)
  }

  function PackEntries(c: Codec, entries: seq<Blob>): (r: Blob)
    ensures Faithful(c) ==> c.openList(r) == Some(entries)
  {
    c.sealList(entries)
  }

  ghost predicate EntryFor(seal: Sealer, keys: RootKeys, g: Group, i: nat, entry: Blob) {
    exists random :: entry == seal(keys, g, i, random)
  }

  /** The list has one entry for each of the group's configurations, in order. */
  ghost predicate EntriesFor(seal: Sealer, keys: RootKeys, g: Group, entries: seq<Blob>) {
    |entries| == g.nrSeals && forall i :: 0 <= i < g.nrSeals ==> EntryFor(seal, keys, g, i, entries[i])
  }

  /** Every seal list in the log reads as one of the keys, for the configurations of group 0. */
  ghost predicate ListsSealed(c: Codec, seal: Sealer, keys: RootKeys, groups: seq<GroupHdr>, slot: nat,
                              log: seq<Write>)
  {
    forall w :: w in log && w.sector == slot ==>
      && |groups| > 0 && groups[0].v.Some? && c.openList(w.blob).Some?
      && EntriesFor(seal, keys, groups[0].v.value, c.openList(w.blob).value)
  }

  datatype Depth = SeqUpdate | CtrUpdate | KeyUpdate | CounterAuthUpdate | NvramAuthUpdate
  datatype Result = Skipped | Done | CounterFailed | Aborted

  class Store {
    const c: Codec
    const dev: Device
    const keys: RootKeys
    const seal: Sealer
    const fixed: bool
    var activeRoot: nat
    var sequence: nat
    var counter: nat
    var groups: seq<GroupHdr>
    var sealsValid: seq<bool>

    ghost predicate Valid()
      reads this, dev, dev.inuse
    {
      && Faithful(c) && Sized(c) && dev.Valid() && activeRoot < 2 && |sealsValid| == 2 && counter < WORD
      && forall i :: 0 <= i < |groups| ==> Coherent(c, dev.disk, keys.tm, groups[i])
    }

    /** The store around a manager that vtpm_load_disk or vtpm_new_disk has set up. */
    constructor (c: Codec, dev: Device, seal: Sealer, fixed: bool, m: Manager, sealsValid: seq<bool>)
      requires Faithful(c) && Sized(c) && dev.Valid() && m.activeRoot < 2 && |sealsValid| == 2 && m.counter < WORD
      requires forall i :: 0 <= i < |m.groups| ==> Coherent(c, dev.disk, m.keys.tm, m.groups[i])
      ensures Valid()
      ensures this.c == c && this.dev == dev && this.seal == seal && this.fixed == fixed
      ensures this.sealsValid == sealsValid
      ensures Manager(keys, counter, sequence, activeRoot, groups) == m
    {
      this.c, this.dev, this.seal, this.fixed, this.sealsValid := c, dev, seal, fixed, sealsValid;
      keys, counter, sequence, activeRoot, groups := m.keys, m.counter, m.sequence, m.activeRoot, m.groups;
    }

    /** disk_write_root_sector: the groups, then the root that lists and signs them. */
    method WriteRoot(slot: nat) returns (ok: bool, ghost root: RootSector, ghost taken: set<Sector>,
                     ghost leaves: Leaves)
      requires Faithful(c) && Sized(c) && dev.Valid() && slot < 2
      requires GroupsReady(c, dev.disk, dev.used[slot], keys.tm, groups, 0, |groups|)
      modifies this`groups, dev, dev.inuse
      ensures dev.Valid()
      ensures RootStep(c, keys.tm, old(Now(dev)), Now(dev), slot, ok, root, taken)
      ensures !ok ==> groups == old(groups) && Blocked(Now(dev), fixed, groups)
      ensures ok ==>
        && (fixed || |groups| <= ENTRIES_PER_ITREE)
        && GroupsWritten(c, old(groups), groups, 0, |groups|)
        && GroupsKept(c, dev.disk, dev.used[slot], keys.tm, old(groups), groups, 0, |groups|)
        && Published(c, dev.disk, dev.used[slot], keys.tm, groups, root, leaves)
        && AccountedWith(taken, leaves.inuse, groups, 0, |groups|)
        && root.area.sequence == sequence && root.area.counter == counter
        && Tabled(c, root, groups)
    {
      hide Faithful, Step, RootStep, Published, GroupsReady, GroupsKept, GroupsWritten, AccountedWith, Listed,
           TabledUpTo, Full, SomeUnwritable;
      ghost var before := Now(dev);
      var writer := new Writer(c, dev, keys.tm, slot);
      var groupWriter := new GroupWriter(writer, fixed);
      var hash, loc := new Digest[ENTRIES_PER_ROOT](_ => Zeros(32)), new Sector[ENTRIES_PER_ROOT](_ => 0);
      var groups';
      ok, groups', taken, leaves := groupWriter.WriteGroupItree(groups, 0, |groups|, hash, loc);
      if !ok {
        root := BlankRoot();
        RootAborts(c, keys.tm, before, Now(dev), slot, root, taken);
        return;
      }
      groups := groups';
      var area := RootArea(sequence, counter, |groups|, hash[..]);
      var nrMacs, macs := SignRoot(c, area, groups);
      TableBound(c, area, groups, macs, nrMacs);
      var sector := MakeRoot(area, loc[..], nrMacs, macs);
      var iv: Blob := *;
      var blob := SealRoot(c, keys.tm, iv, sector);
      root := sector;
      ghost var middle := Now(dev);
      dev.WriteSector(2 + slot, blob);
      RootWrites(c, keys.tm, before, middle, Now(dev), slot, root, taken, blob);
      RootPublished(c, middle, Now(dev), slot, keys.tm, old(groups), groups, root, leaves, blob);
    }

    /** disk_write_seal_list: the slot's seal list, unless it is already valid. */
    method WriteSealList(slot: nat) returns (ok: bool, ghost blob: Blob)
      requires Faithful(c) && dev.Valid() && slot < 2 && |sealsValid| == 2 && |groups| > 0 && groups[0].v.Some?
      modifies this`sealsValid, dev`disk, dev`log
      ensures dev.Valid() && |sealsValid| == 2
      ensures ok <==> old(sealsValid)[slot] || old(groups[0].v.value.nrSeals) <= MAX_SEALS_PER_ROOT
      ensures Now(dev) == if ok && !old(sealsValid)[slot] then SealWritten(old(Now(dev)), slot, blob) else old(Now(dev))
      ensures ok && !old(sealsValid)[slot] ==>
        c.openList(blob).Some? && EntriesFor(seal, keys, groups[0].v.value, c.openList(blob).value)
      ensures ok ==> sealsValid == old(sealsValid)[slot := true]
    {
      hide Faithful, EntryFor;
      blob := [];
      if sealsValid[slot] {
        return true, blob;
      }
      if groups[0].v.value.nrSeals > MAX_SEALS_PER_ROOT {
        return false, blob;
      }
      var g, entries: seq<Blob> := groups[0].v.value, [];
      for i := 0 to g.nrSeals
        invariant |entries| == i && forall k :: 0 <= k < i ==> EntryFor(seal, keys, g, k, entries[k])
      {
        var random: Blob := *;
        entries := entries + [SealEntry(seal, keys, g, i, random)];
      }
      var list := PackEntries(c, entries);
      dev.WriteSector(slot, list);
      sealsValid := sealsValid[slot := true];
      return true, list;
    }

    /** disk_write_all, for the slot that is now active. */
    method WriteAll() returns (ok: bool, ghost wrote: bool, ghost root: RootSector, ghost leaves: Leaves)
      requires Valid() && |groups| > 0 && groups[0].v.Some?
      modifies this`groups, this`sealsValid, dev, dev.inuse
      ensures dev.Valid() && |sealsValid| == 2 && (ok ==> wrote && sealsValid == old(sealsValid)[activeRoot := true])
      ensures !ok ==> Blocked(Now(dev), fixed, old(groups)) || old(groups[0].v.value.nrSeals) > MAX_SEALS_PER_ROOT
      ensures SyncStep(c, keys.tm, old(Now(dev)), Now(dev), activeRoot, wrote, root)
      ensures |old(dev.log)| <= |dev.log| && ListsSealed(c, seal, keys, groups, activeRoot, dev.log[|old(dev.log)|..])
      ensures wrote ==>
        && Valid()
        && (fixed || |groups| <= ENTRIES_PER_ITREE)
        && GroupsWritten(c, old(groups), groups, 0, |groups|)
        && BroughtUp(c, old(dev.disk), dev.disk, keys.tm, old(groups), groups)
        && Published(c, dev.disk, dev.used[activeRoot], keys.tm, groups, root, leaves)
        && Tabled(c, root, groups)
        && root.area.sequence == sequence && root.area.counter == counter
        && ExactlyUsed(dev.used[activeRoot], groups, leaves)
    {
      hide Faithful, Coherent, RootStep, SyncStep, Published, GroupsReady, GroupsWritten, AccountedWith, Tabled,
           ExactlyUsed, Occupies, GroupReady, BroughtUp, GroupsKept, Blocked;
      ghost var slot, before, was := activeRoot, Now(dev), groups;
      forall i, s | 0 <= i < |groups| && Occupies(groups[i], s) ensures Dynamic(s) {
        CoherentOccupies(c, dev.disk, keys.tm, groups[i], s);
      }
      root := BlankRoot(); leaves := Leaves([], [], []); wrote := false;
      ok := PopulateAll(dev, groups, activeRoot);
      Populated(c, before, Now(dev), activeRoot, keys.tm, groups, ok);
      if !ok {
        SyncNothing(c, keys.tm, before, Now(dev), activeRoot, root);
        NotSealed(c, seal, keys, groups, slot, before, Now(dev));
        return;
      }
      ghost var middle := Now(dev);
      ghost var taken;
      ok, root, taken, leaves := WriteRoot(activeRoot);
      if !ok {
        SyncAborts(c, keys.tm, before, middle, Now(dev), activeRoot, root, taken);
        NoSealIn(c, keys.tm, middle, Now(dev), slot, false, root, taken);
        NotSealed(c, seal, keys, groups, slot, before, Now(dev));
        return;
      }
      wrote := true;
      ghost var end := Now(dev);
      RootWrittenAccounting(c, middle, end, activeRoot, keys.tm, was, groups, taken, root, leaves);
      SyncWrites(c, keys.tm, before, middle, end, activeRoot, root, taken);
      GroupZero(c, was, groups);
      assert |was| == |groups|;
      NoSealIn(c, keys.tm, middle, end, slot, true, root, taken);
      ghost var blob;
      ok, blob := WriteSealList(activeRoot);
      if Now(dev) == end {
        NotSealed(c, seal, keys, groups, slot, before, end);
      } else {
        SealSealed(c, seal, keys, groups, slot, before, end, blob);
      }
      SealStep(c, keys.tm, before, end, Now(dev), slot, root, blob);
      SealRefreshes(c, before, middle, end, Now(dev), slot, keys.tm, was, groups, root, taken, blob);
      SealKeeps(c, end, Now(dev), slot, keys.tm, groups, root, leaves, blob);
    }

    /** vtpm_sync_disk.  tpmOk is the TPM's answer to what the depth asks of it after the write: the counter
        increment, or the change of an authorisation.  A key update aborts on the first group. */
    method SyncDisk(depth: Depth, tpmOk: bool)
      returns (result: Result, ghost wrote: bool, ghost root: RootSector, ghost leaves: Leaves)
      requires Valid() && |groups| > 0
      modifies this, dev, dev.inuse
      ensures dev.Valid() && |sealsValid| == 2 && activeRoot < 2
      ensures result == Skipped <==> old(groups[0].v.None? || groups[0].v.value.nrSeals == 0)
      ensures result == Skipped ==>
        && Now(dev) == old(Now(dev)) && Valid()
        && (groups, sequence, counter) == old((groups, sequence, counter))
        && (activeRoot, sealsValid) == old((activeRoot, sealsValid))
      ensures |old(dev.log)| <= |dev.log|
      ensures result != Skipped ==>
        && sequence == (old(sequence) + 1) % 0x1_0000_0000_0000_0000
        && SyncStep(c, keys.tm, old(Now(dev)), Now(dev), 1 - old(activeRoot), wrote, root)
        && ListsSealed(c, seal, keys, groups, 1 - old(activeRoot), dev.log[|old(dev.log)|..])
      ensures result in {Done, CounterFailed} ==>
        && wrote
        && sealsValid == (if depth in {CounterAuthUpdate, NvramAuthUpdate} then [false, false] else old(sealsValid))
                         [1 - old(activeRoot) := true]
      ensures result == CounterFailed <==> result in {Done, CounterFailed} && depth == CtrUpdate && !tpmOk
      ensures depth == KeyUpdate && result != Skipped ==>
        result == Aborted && Now(dev) == old(Now(dev)) && sealsValid == [false, false]
      ensures result == Aborted ==>
        || depth == KeyUpdate || (depth in {CounterAuthUpdate, NvramAuthUpdate} && !tpmOk)
        || Blocked(Now(dev), fixed, old(groups)) || old(groups[0].v.value.nrSeals) > MAX_SEALS_PER_ROOT
      ensures result != Skipped && depth in {CounterAuthUpdate, NvramAuthUpdate} && !tpmOk ==> result == Aborted
      ensures wrote && result != Skipped ==>
        && Valid()
        && (fixed || |groups| <= ENTRIES_PER_ITREE)
        && GroupsWritten(c, old(groups), groups, 0, |groups|)
        && BroughtUp(c, old(dev.disk), dev.disk, keys.tm, old(groups), groups)
        && Published(c, dev.disk, dev.used[1 - old(activeRoot)], keys.tm, groups, root, leaves)
        && ExactlyUsed(dev.used[1 - old(activeRoot)], groups, leaves)
        && Tabled(c, root, groups)
        && root.area.sequence == sequence
        && root.area.counter == (if depth == CtrUpdate then (old(counter) + 1) % WORD else old(counter))
      ensures result == Done ==> activeRoot == 1 - old(activeRoot) && counter == root.area.counter
      ensures result == CounterFailed ==> activeRoot == old(activeRoot) && counter == old(counter)
    {
      hide Faithful, Coherent, SyncStep, Published, GroupsWritten, Tabled, ExactlyUsed, BroughtUp, Blocked, ListsSealed,
           BlankRoot, Device.Valid;
      var previous := activeRoot;
      wrote := false; root := BlankRoot(); leaves := Leaves([], [], []);
      if groups[0].v.None? || groups[0].v.value.nrSeals == 0 {
        return Skipped, wrote, root, leaves;
      }
      sequence := (sequence + 1) % 0x1_0000_0000_0000_0000;
      activeRoot := 1 - activeRoot;
      match depth {
        case SeqUpdate =>
        case CtrUpdate => counter := (counter + 1) % WORD;
        case KeyUpdate =>
          sealsValid := [false, false];
          TwoSlots(dev);
          SyncNothing(c, keys.tm, Now(dev), Now(dev), activeRoot, root);
          NotSealed(c, seal, keys, groups, activeRoot, Now(dev), Now(dev));
          return Aborted, wrote, root, leaves;
        case _ => sealsValid := [false, false];
      }
      var ok;
      ok, wrote, root, leaves := WriteAll();
      if !ok {
        return Aborted, wrote, root, leaves;
      }
      if tpmOk || depth == SeqUpdate {
        result := Done;
      } else if depth == CtrUpdate {
        counter := (counter + WORD - 1) % WORD;
        activeRoot := previous;
        result := CounterFailed;
      } else {
        result := Aborted;
      }
    }
  }

  function MakeRoot(area: RootArea, locs: seq<Sector>, nrMacs: nat, macs: seq<MacEntry>): (r: RootSector)
    requires |area.hashes| == |locs| == ENTRIES_PER_ROOT && |macs| == RB_MACS_PER_ROOT
  {
    RootData(area, locs, nrMacs, macs)
  }

  function BlankRoot(): (r: RootSector) {
    RootData(RootArea(0, 0, 0, seq(ENTRIES_PER_ROOT, _ => [])), seq(ENTRIES_PER_ROOT, _ => 0), 0, BlankMacs())
  }

  lemma TableBound(c: Codec, area: RootArea, groups: seq<GroupHdr>, macs: seq<MacEntry>, nr: nat)
    requires exists i :: TabledUpTo(c, area, groups, macs, nr, i) && (i == |groups| || nr == RB_MACS_PER_ROOT)
    ensures nr <= RB_MACS_PER_ROOT == |macs|
  {
  }

  /** The writes of disk_write_root_sector: free sectors, and at the end, unless it aborts, the root. */
  ghost predicate RootStep(c: Codec, key: Key, a: Snapshot, b: Snapshot, slot: nat, ok: bool, root: RootSector,
                           taken: set<Sector>)
  {
    && slot < 2 && |a.used| == |b.used| == 2
    && b.used[1 - slot] == a.used[1 - slot] && b.used[slot] == a.used[slot] + taken
    && |a.log| <= |b.log| && b.log[..|a.log|] == a.log
    && b.disk == Apply(a.disk, b.log[|a.log|..])
    && LogShape(c, key, slot, a.used[1 - slot], b.log[|a.log|..], root)
    && (!ok ==> forall w :: w in b.log[|a.log|..] ==> Dynamic(w.sector))
    && (ok ==> exists w :: w in b.log[|a.log|..] && w.sector == 2 + slot)
    && (forall w :: w in b.log[|a.log|..] ==> w.sector != slot)
    && Preserves(a.disk, a.used[slot], b.disk, b.used[slot])
  }

  lemma RootAborts(c: Codec, key: Key, a: Snapshot, b: Snapshot, slot: nat, root: RootSector, taken: set<Sector>)
    requires Step(a, b, slot, taken)
    ensures RootStep(c, key, a, b, slot, false, root, taken)
  {
    StepPreserves(a, b, slot, taken);
  }

  lemma RootWrites(c: Codec, key: Key, a: Snapshot, b: Snapshot, d: Snapshot, slot: nat, root: RootSector,
                   taken: set<Sector>, blob: Blob)
    requires Step(a, b, slot, taken) && c.openRoot(key, blob) == Some(root)
    requires d == Snapshot(b.disk[2 + slot := blob], b.used, b.log + [Write(2 + slot, blob)])
    ensures RootStep(c, key, a, d, slot, true, root, taken)
  {
    hide LogShape, Dynamic, Preserves, Apply;
    var x, last := b.log[|a.log|..], Write(2 + slot, blob);
    RootLog(c, key, slot, a.used[1 - slot], x, last, root);
    RootPreserves(a, b, d, slot, taken, blob);
    StepParts(a, b, slot, taken);
    hide Step;
    LogGrows(a, b, d, last);
  }

  /** One more write. */
  lemma LogGrows(a: Snapshot, b: Snapshot, d: Snapshot, last: Write)
    requires |a.log| <= |b.log| && b.log[..|a.log|] == a.log && b.disk == Apply(a.disk, b.log[|a.log|..])
    requires d.disk == b.disk[last.sector := last.blob] && d.log == b.log + [last]
    ensures |a.log| <= |d.log| && d.log[..|a.log|] == a.log && d.log[|a.log|..] == b.log[|a.log|..] + [last]
    ensures d.disk == Apply(a.disk, d.log[|a.log|..])
  {
    var x := b.log[|a.log|..];
    var y := x + [last];
    assert d.log[|a.log|..] == y;
    assert d.log[..|a.log|] == b.log[..|a.log|];
    assert y[..|x|] == x && y[|y| - 1] == last;
  }

  lemma StepParts(a: Snapshot, b: Snapshot, slot: nat, taken: set<Sector>)
    requires Step(a, b, slot, taken)
    ensures slot < 2 && |a.used| == |b.used| == 2
    ensures b.used[1 - slot] == a.used[1 - slot] && b.used[slot] == a.used[slot] + taken
    ensures |a.log| <= |b.log| && b.log[..|a.log|] == a.log && b.disk == Apply(a.disk, b.log[|a.log|..])
  {
  }

  lemma RootPreserves(a: Snapshot, b: Snapshot, d: Snapshot, slot: nat, taken: set<Sector>, blob: Blob)
    requires Step(a, b, slot, taken)
    requires d == Snapshot(b.disk[2 + slot := blob], b.used, b.log + [Write(2 + slot, blob)])
    ensures Preserves(a.disk, a.used[slot], d.disk, d.used[slot])
  {
    StepPreserves(a, b, slot, taken);
    assert slot < 2;
    hide Step;
  }

  lemma RootLog(c: Codec, key: Key, slot: nat, other: set<Sector>, x: seq<Write>, last: Write, root: RootSector)
    requires slot < 2 && last.sector == 2 + slot && c.openRoot(key, last.blob) == Some(root)
    requires forall w :: w in x ==> Dynamic(w.sector) && w.sector !in other
    ensures LogShape(c, key, slot, other, x + [last], root)
    ensures last in x + [last] && forall w :: w in x + [last] ==> w.sector != slot
  {
    var y := x + [last];
    assert y[|x|] == last;
    forall w | w in y ensures w in x || w == last {
      var k :| 0 <= k < |y| && y[k] == w;
      assert k < |x| ==> x[k] == w;
    }
  }

  /** Writing a fixed sector leaves everything that is published as it was. */
  lemma RootPublished(c: Codec, b: Snapshot, d: Snapshot, slot: nat, key: Key, was: seq<GroupHdr>,
                      groups: seq<GroupHdr>, root: RootSector, leaves: Leaves, blob: Blob)
    requires Sized(c) && slot < 2 <= |b.used| && root.area.nrGroups == |groups| && root.nrMacs <= RB_MACS_PER_ROOT
    requires d == Snapshot(b.disk[2 + slot := blob], b.used, b.log + [Write(2 + slot, blob)])
    requires |was| == |groups| && GroupsKept(c, b.disk, b.used[slot], key, was, groups, 0, |groups|)
    requires Listed(c, b.disk, b.used[slot], key, HdrHashes(groups), HdrLocs(groups), 0, |groups|,
                    root.area.hashes, root.locs, leaves)
    ensures Published(c, d.disk, d.used[slot], key, groups, root, leaves)
    ensures GroupsKept(c, d.disk, d.used[slot], key, was, groups, 0, |groups|)
  {
    assert Preserves(b.disk, b.used[slot], d.disk, d.used[slot]);
    hide Refreshed, HdrKept, Listed, Preserves;
    forall i | 0 <= i < |groups|
      ensures Refreshed(c, d.disk, d.used[slot], key, was[i], groups[i])
      ensures HdrKept(c, b.disk, b.used[slot], key, groups[i])
    {
      RefreshedMove(c, b.disk, b.used[slot], d.disk, d.used[slot], key, was[i], groups[i]);
      RefreshedHeld(c, b.disk, b.used[slot], key, was[i], groups[i]);
    }
    assert Published(c, b.disk, b.used[slot], key, groups, root, leaves);
    PublishedMove(c, b.disk, d.disk, b.used[slot], key, groups, root, leaves);
  }

  lemma RefreshedHeld(c: Codec, disk: Disk, used: set<Sector>, key: Key, was: GroupHdr, hdr: GroupHdr)
    requires Sized(c) && Refreshed(c, disk, used, key, was, hdr)
    ensures HdrKept(c, disk, used, key, hdr) && (was.loc == 0 ==> GroupKept(c, disk, used, key, hdr))
  {
  }

  /** What is published stays so while dynamic sectors do not change. */
  lemma PublishedMove(c: Codec, a: Disk, b: Disk, used: set<Sector>, key: Key, groups: seq<GroupHdr>, root: RootSector,
                      leaves: Leaves)
    requires Sized(c) && Published(c, a, used, key, groups, root, leaves)
    requires forall s :: Dynamic(s) ==> Read(b, s) == Read(a, s)
    ensures Published(c, b, used, key, groups, root, leaves)
  {
    hide HdrKept, Listed, Dynamic;
    assert Preserves(a, used, b, used);
    forall i | 0 <= i < |groups| ensures HdrKept(c, b, used, key, groups[i]) {
      HdrKeptMove(c, a, used, b, used, key, groups[i]);
    }
    ListedMove(c, a, used, b, used, key, HdrHashes(groups), HdrLocs(groups), 0, |groups|,
               root.area.hashes, root.locs, leaves);
  }

  /** A sync brings the groups up to date. */
  lemma SealRefreshes(c: Codec, a: Snapshot, m: Snapshot, b: Snapshot, d: Snapshot, slot: nat, key: Key,
                      was: seq<GroupHdr>, groups: seq<GroupHdr>, root: RootSector, taken: set<Sector>, blob: Blob)
    requires Sized(c) && slot < 2 <= |m.used| && a.disk == m.disk && RootStep(c, key, m, b, slot, true, root, taken)
    requires |was| == |groups| && GroupsKept(c, b.disk, b.used[slot], key, was, groups, 0, |groups|)
    requires GroupsWritten(c, was, groups, 0, |groups|)
    requires forall s :: Dynamic(s) ==> (s in m.used[slot] <==> OccupiedBy(was, |was|, s))
    requires d in {b, SealWritten(b, slot, blob)}
    ensures BroughtUp(c, a.disk, d.disk, key, was, groups)
  {
    assert Preserves(m.disk, m.used[slot], b.disk, b.used[slot]);
    assert Preserves(b.disk, AllDynamic(), d.disk, AllDynamic());
    hide RootStep, Refreshed, GroupWritten, GroupKept, Dynamic, Preserves, Occupies;
    forall i | 0 <= i < |was|
      ensures InSync(c, d.disk, key, groups[i]) <==> was[i].loc == 0 || InSync(c, a.disk, key, was[i])
    {
      if was[i].loc == 0 {
        RefreshedHeld(c, b.disk, b.used[slot], key, was[i], groups[i]);
        KeptAnywhere(c, b.disk, b.used[slot], key, groups[i]);
        GroupKeptMove(c, b.disk, AllDynamic(), d.disk, AllDynamic(), key, groups[i]);
      } else {
        WrittenSame(c, was[i], groups[i]);
        SameReads(c, a.disk, m.used[slot], b.disk, b.used[slot], d.disk, key, was, i);
      }
    }
  }

  lemma KeptAnywhere(c: Codec, disk: Disk, used: set<Sector>, key: Key, hdr: GroupHdr)
    requires Sized(c) && GroupKept(c, disk, used, key, hdr)
    ensures GroupKept(c, disk, AllDynamic(), key, hdr)
  {
    hide GroupKept, Occupies, Dynamic;
    KeptOccupies(c, disk, used, key, hdr);
    KeptIn(c, disk, used, AllDynamic(), key, hdr);
  }

  /** A sync leaves everything that a clean header occupies as it was. */
  lemma SameReads(c: Codec, a: Disk, used: set<Sector>, b: Disk, used': set<Sector>, d: Disk, key: Key,
                  was: seq<GroupHdr>, i: nat)
    requires Sized(c) && Preserves(a, used, b, used') && Preserves(b, AllDynamic(), d, AllDynamic())
    requires forall s :: Dynamic(s) ==> (s in used <==> OccupiedBy(was, |was|, s))
    requires i < |was| && was[i].loc != 0
    ensures InSync(c, a, key, was[i]) <==> InSync(c, d, key, was[i])
  {
    var hdr := was[i];
    var own := set s | s in [hdr.loc] + hdr.inuse;
    if GroupKept(c, a, AllDynamic(), key, hdr) || GroupKept(c, d, AllDynamic(), key, hdr) {
      assert forall s :: Occupies(hdr, s) ==> Dynamic(s) by {
        if GroupKept(c, a, AllDynamic(), key, hdr) {
          KeptOccupies(c, a, AllDynamic(), key, hdr);
        } else {
          KeptOccupies(c, d, AllDynamic(), key, hdr);
        }
      }
      forall s | s in own ensures Read(a, s) == Read(d, s) {
        assert Occupies(hdr, s) && OccupiedBy(was, |was|, s);
      }
      assert Preserves(a, own, d, own) && Preserves(d, own, a, own);
      hide GroupKept, Preserves, Dynamic;
      assert forall s :: Occupies(hdr, s) ==> s in own;
      hide Occupies;
      if GroupKept(c, a, AllDynamic(), key, hdr) {
        KeptIn(c, a, AllDynamic(), own, key, hdr);
        GroupKeptMove(c, a, own, d, own, key, hdr);
        KeptAnywhere(c, d, own, key, hdr);
      } else {
        KeptIn(c, d, AllDynamic(), own, key, hdr);
        GroupKeptMove(c, d, own, a, own, key, hdr);
        KeptAnywhere(c, a, own, key, hdr);
      }
    }
  }

  lemma WrittenSame(c: Codec, was: GroupHdr, hdr: GroupHdr)
    requires GroupWritten(c, was, hdr) && was.loc != 0
    ensures hdr == was
  {
  }

  lemma KeptOccupies(c: Codec, disk: Disk, used: set<Sector>, key: Key, hdr: GroupHdr)
    requires Sized(c) && GroupKept(c, disk, used, key, hdr)
    ensures hdr.loc != 0 && forall s :: Occupies(hdr, s) ==> Dynamic(s) && s in used
  {
    hide GroupKept, Occupies;
    KeptIsVersion(c, disk, used, key, hdr);
    KeptLoc(c, disk, used, key, hdr);
    forall s | Occupies(hdr, s) ensures Dynamic(s) && s in used {
      OccupiesDynamic(c, disk, used, key, hdr, s);
    }
  }

  ghost function SealWritten(a: Snapshot, slot: nat, blob: Blob): (r: Snapshot) {
    Snapshot(a.disk[slot := blob], a.used, a.log + [Write(slot, blob)])
  }

  /** What a sync does to the device, complete or not. */
  ghost predicate SyncStep(c: Codec, key: Key, a: Snapshot, b: Snapshot, slot: nat, wrote: bool, root: RootSector) {
    && slot < 2 && |a.used| == |b.used| == 2
    && b.used[1 - slot] == a.used[1 - slot]
    && |a.log| <= |b.log| && b.log[..|a.log|] == a.log
    && b.disk == Apply(a.disk, b.log[|a.log|..])
    && LogShape(c, key, slot, a.used[1 - slot], b.log[|a.log|..], root)
    && (wrote <==> exists w :: w in b.log[|a.log|..] && w.sector == 2 + slot)
  }

  /** The slot's dynamic sectors are exactly those that its root reaches. */
  ghost predicate ExactlyUsed(used: set<Sector>, groups: seq<GroupHdr>, leaves: Leaves) {
    forall s :: Dynamic(s) ==> (s in used <==> s in leaves.inuse || OnLists(groups, s))
  }

  lemma CoherentOccupies(c: Codec, disk: Disk, key: Key, hdr: GroupHdr, s: Sector)
    requires Sized(c) && Coherent(c, disk, key, hdr) && Occupies(hdr, s)
    ensures Dynamic(s)
  {
    OccupiesDynamic(c, disk, AllDynamic(), key, hdr, s);
  }

  /** After marking, everything clean is held by the slot, and marking never fails. */
  lemma Populated(c: Codec, a: Snapshot, b: Snapshot, slot: nat, key: Key, groups: seq<GroupHdr>, ok: bool)
    requires Sized(c) && slot < 2 <= |b.used| && a.disk == b.disk
    requires forall i :: 0 <= i < |groups| ==> Coherent(c, a.disk, key, groups[i])
    requires ok <==> forall i :: 0 <= i < |groups| ==> groups[i].loc != 0 || groups[i].v.Some?
    requires ok ==> forall s :: Dynamic(s) ==> (s in b.used[slot] <==> OccupiedBy(groups, |groups|, s))
    ensures ok && GroupsReady(c, b.disk, b.used[slot], key, groups, 0, |groups|)
  {
    hide GroupReady, Occupies;
    forall i | 0 <= i < |groups| ensures GroupReady(c, b.disk, b.used[slot], key, groups[i]) {
      assert Coherent(c, a.disk, key, groups[i]);
      forall s | Occupies(groups[i], s) ensures s in b.used[slot] {
        CoherentOccupies(c, a.disk, key, groups[i], s);
        assert OccupiedBy(groups, |groups|, s);
      }
      ReadyIn(c, a.disk, AllDynamic(), b.used[slot], key, groups[i]);
    }
  }

  lemma SyncNothing(c: Codec, key: Key, a: Snapshot, b: Snapshot, slot: nat, root: RootSector)
    requires slot < 2 && |a.used| == |b.used| == 2 && b.used[1 - slot] == a.used[1 - slot]
    requires a.disk == b.disk && a.log == b.log
    ensures SyncStep(c, key, a, b, slot, false, root)
  {
  }

  lemma SyncAborts(c: Codec, key: Key, a: Snapshot, m: Snapshot, b: Snapshot, slot: nat, root: RootSector,
                   taken: set<Sector>)
    requires slot < 2 && |a.used| == |m.used| == 2 && m.used[1 - slot] == a.used[1 - slot]
    requires a.disk == m.disk && a.log == m.log && RootStep(c, key, m, b, slot, false, root, taken)
    ensures SyncStep(c, key, a, b, slot, false, root)
  {
  }

  lemma SyncWrites(c: Codec, key: Key, a: Snapshot, m: Snapshot, b: Snapshot, slot: nat, root: RootSector,
                   taken: set<Sector>)
    requires slot < 2 && |a.used| == |m.used| == 2 && m.used[1 - slot] == a.used[1 - slot]
    requires a.disk == m.disk && a.log == m.log && RootStep(c, key, m, b, slot, true, root, taken)
    ensures SyncStep(c, key, a, b, slot, true, root)
  {
  }

  lemma GroupZero(c: Codec, was: seq<GroupHdr>, groups: seq<GroupHdr>)
    requires |was| > 0 && was[0].v.Some? && GroupsWritten(c, was, groups, 0, |groups|)
    ensures |groups| == |was| && groups[0].v.Some? && groups[0].v.value.nrSeals == was[0].v.value.nrSeals
  {
    assert GroupWritten(c, was[0], groups[0]);
  }

  lemma TwoSlots(dev: Device)
    requires dev.Valid()
    ensures |dev.used| == 2
  {
  }

  lemma NoSealIn(c: Codec, key: Key, a: Snapshot, b: Snapshot, slot: nat, ok: bool, root: RootSector,
                 taken: set<Sector>)
    requires RootStep(c, key, a, b, slot, ok, root, taken)
    ensures |a.log| <= |b.log| && forall w :: w in b.log[|a.log|..] ==> w.sector != slot
  {
  }

  lemma NotSealed(c: Codec, seal: Sealer, keys: RootKeys, groups: seq<GroupHdr>, slot: nat, a: Snapshot, b: Snapshot)
    requires |a.log| <= |b.log| && forall w :: w in b.log[|a.log|..] ==> w.sector != slot
    ensures ListsSealed(c, seal, keys, groups, slot, b.log[|a.log|..])
  {
  }

  lemma SealSealed(c: Codec, seal: Sealer, keys: RootKeys, groups: seq<GroupHdr>, slot: nat, a: Snapshot, b: Snapshot,
                   blob: Blob)
    requires |a.log| <= |b.log| && forall w :: w in b.log[|a.log|..] ==> w.sector != slot
    requires |groups| > 0 && groups[0].v.Some? && c.openList(blob).Some?
    requires EntriesFor(seal, keys, groups[0].v.value, c.openList(blob).value)
    ensures ListsSealed(c, seal, keys, groups, slot, SealWritten(b, slot, blob).log[|a.log|..])
  {
    var y := SealWritten(b, slot, blob).log[|a.log|..];
    assert y == b.log[|a.log|..] + [Write(slot, blob)];
    forall w | w in y && w.sector == slot ensures w.blob == blob {
      assert w in b.log[|a.log|..] || w == Write(slot, blob);
    }
  }

  lemma SealStep(c: Codec, key: Key, a: Snapshot, b: Snapshot, d: Snapshot, slot: nat, root: RootSector, blob: Blob)
    requires SyncStep(c, key, a, b, slot, true, root) && d in {b, SealWritten(b, slot, blob)}
    ensures SyncStep(c, key, a, d, slot, true, root)
  {
    hide LogShape, Apply, Dynamic;
    if d != b {
      var last := Write(slot, blob);
      SealLog(c, key, slot, a.used[1 - slot], b.log[|a.log|..], last, root);
      LogGrows(a, b, d, last);
    }
  }

  lemma SealLog(c: Codec, key: Key, slot: nat, other: set<Sector>, x: seq<Write>, last: Write, root: RootSector)
    requires slot < 2 && last.sector == slot && LogShape(c, key, slot, other, x, root)
    requires exists w :: w in x && w.sector == 2 + slot
    ensures LogShape(c, key, slot, other, x + [last], root)
    ensures exists w :: w in x + [last] && w.sector == 2 + slot
  {
    var y := x + [last];
    forall w | w in y ensures w in x || w == last {
      var k :| 0 <= k < |y| && y[k] == w;
      assert k < |x| ==> x[k] == w;
    }
    var w :| w in x && w.sector == 2 + slot;
    assert w in y;
  }

  lemma SealKeeps(c: Codec, b: Snapshot, d: Snapshot, slot: nat, key: Key, groups: seq<GroupHdr>, root: RootSector,
                  leaves: Leaves, blob: Blob)
    requires Sized(c) && slot < 2 <= |b.used| && d in {b, SealWritten(b, slot, blob)}
    requires Published(c, b.disk, b.used[slot], key, groups, root, leaves)
    ensures d.used == b.used && Published(c, d.disk, d.used[slot], key, groups, root, leaves)
    ensures forall i :: 0 <= i < |groups| ==> Coherent(c, d.disk, key, groups[i])
  {
    hide Published, Coherent;
    PublishedMove(c, b.disk, d.disk, b.used[slot], key, groups, root, leaves);
    PublishedCoherent(c, d.disk, d.used[slot], key, groups, root, leaves);
  }

  lemma PublishedCoherent(c: Codec, disk: Disk, used: set<Sector>, key: Key, groups: seq<GroupHdr>, root: RootSector,
                          leaves: Leaves)
    requires Sized(c) && Published(c, disk, used, key, groups, root, leaves)
    ensures forall i :: 0 <= i < |groups| ==> Coherent(c, disk, key, groups[i])
  {
    hide HdrKept, Listed, Occupies;
    forall i | 0 <= i < |groups| ensures Coherent(c, disk, key, groups[i]) {
      KeptLoc(c, disk, used, key, groups[i]);
      forall s | Occupies(groups[i], s) ensures s in AllDynamic() {
        OccupiesDynamic(c, disk, used, key, groups[i], s);
      }
      ReadyIn(c, disk, used, AllDynamic(), key, groups[i]);
    }
  }

  /** Exact accounting: what was marked and what was taken is what the new root reaches. */
  lemma RootWrittenAccounting(c: Codec, m: Snapshot, b: Snapshot, slot: nat, key: Key, was: seq<GroupHdr>,
                              groups: seq<GroupHdr>, taken: set<Sector>, root: RootSector, leaves: Leaves)
    requires Sized(c) && slot < 2 <= |m.used| && |b.used| == 2
    requires RootStep(c, key, m, b, slot, true, root, taken)
    requires forall s :: Dynamic(s) ==> (s in m.used[slot] <==> OccupiedBy(was, |was|, s))
    requires GroupsWritten(c, was, groups, 0, |groups|)
    requires Published(c, b.disk, b.used[slot], key, groups, root, leaves)
    requires AccountedWith(taken, leaves.inuse, groups, 0, |groups|)
    ensures ExactlyUsed(b.used[slot], groups, leaves)
  {
    hide LogShape, Listed, HdrKept, GroupWritten, Occupies, Dynamic, Apply, Preserves;
    forall s | Dynamic(s) ensures s in b.used[slot] <==> s in leaves.inuse || OnLists(groups, s) {
      if s in m.used[slot] {
        var i :| 0 <= i < |was| && Occupies(was[i], s);
        StillReached(c, b.disk, b.used[slot], key, was[i], groups[i], s);
        RootListsGroup(c, b.disk, b.used[slot], key, groups, root, leaves, i);
      } else if s in taken {
        if s !in leaves.inuse {
          var i :| 0 <= i < |groups| && s in groups[i].inuse;
        }
      }
      if s in leaves.inuse {
        RootHolds(c, b.disk, b.used[slot], key, groups, root, leaves, s);
      } else if OnLists(groups, s) {
        var i :| 0 <= i < |groups| && s in groups[i].inuse;
        GroupHolds(c, b.disk, b.used[slot], key, groups[i], s);
      }
    }
  }

  /** A sector that a group occupied before it was written is its own or on its list afterwards. */
  lemma StillReached(c: Codec, disk: Disk, used: set<Sector>, key: Key, was: GroupHdr, hdr: GroupHdr, s: Sector)
    requires Sized(c) && GroupWritten(c, was, hdr) && HdrKept(c, disk, used, key, hdr) && Occupies(was, s)
    ensures s == hdr.loc || s in hdr.inuse
  {
    hide Resolve, LoadPages, PagesKept, Paged;
    if was.loc == 0 {
      var k :| 0 <= k < |was.v.value.pages| && was.v.value.pages[k].loc == s != 0;
      var v :| KeptVersion(c, disk, used, key, hdr, v);
      var sector, leaves :| KeptAs(c, disk, used, key, hdr.(v := v), sector, leaves);
      LocsInUse(c, disk, key, PagesFor(sector.area.nrVtpms), ENTRIES_PER_GROUP, sector.area.hashes, sector.locs);
      assert hdr.v.value.pages[k].loc == s && Locs(v.value.pages)[k] == s;
      SameSectors(hdr.inuse, leaves.inuse);
    }
  }

  lemma RootListsGroup(c: Codec, disk: Disk, used: set<Sector>, key: Key, groups: seq<GroupHdr>, root: RootSector,
                       leaves: Leaves, i: nat)
    requires Sized(c) && Published(c, disk, used, key, groups, root, leaves) && i < |groups|
    ensures groups[i].loc in leaves.inuse
  {
    hide Resolve, AllHeld;
    LocsInUse(c, disk, key, |groups|, ENTRIES_PER_ROOT, root.area.hashes, root.locs);
    assert HdrLocs(groups)[0..0 + |groups|][i] == groups[i].loc;
  }

  lemma RootHolds(c: Codec, disk: Disk, used: set<Sector>, key: Key, groups: seq<GroupHdr>, root: RootSector,
                  leaves: Leaves, s: Sector)
    requires Sized(c) && Published(c, disk, used, key, groups, root, leaves) && s in leaves.inuse
    ensures Dynamic(s) && s in used
  {
    hide Resolve, AllHeld;
  }

  lemma GroupHolds(c: Codec, disk: Disk, used: set<Sector>, key: Key, hdr: GroupHdr, s: Sector)
    requires Sized(c) && HdrKept(c, disk, used, key, hdr) && s in hdr.inuse
    ensures Dynamic(s) && s in used
  {
    hide Resolve, LoadPages, PagesKept, Matches, Behind;
    var v :| KeptVersion(c, disk, used, key, hdr, v);
    var sector, leaves :| KeptAs(c, disk, used, key, hdr.(v := v), sector, leaves);
    SameSectors(hdr.inuse, leaves.inuse);
  }
}
