/**
 Rollback detection.  The root sector carries, for each open group that is not already flagged, a MAC
 of the root area under the group's own key.  The loader joins this table with the groups that open.
 */
module Rollback {
  import opened Wrappers
  import opened Bytes
  import opened DiskFormat
  import opened DiskLoad

  /** Entries are in increasing order of group number, and the unused rest of the table is zero. */
  ghost predicate Ordered(root: RootSector) {
    && root.nrMacs <= RB_MACS_PER_ROOT
    && (forall j, k :: 0 <= j < k < root.nrMacs ==> root.macs[j].id < root.macs[k].id)
    && (forall j :: root.nrMacs <= j < RB_MACS_PER_ROOT ==> root.macs[j].id == 0)
  }

  ghost predicate Entry(root: RootSector, i: nat, j: nat) {
    j < root.nrMacs <= RB_MACS_PER_ROOT && root.macs[j].id == i
  }

  /** The table holds a valid MAC for group i. */
  ghost predicate Vouched(c: Codec, root: RootSector, i: nat, key: Key) {
    exists j: nat :: Entry(root, i, j) && root.macs[j].mac == c.macRoot(key, root.area)
  }

  /** The scan runs off the table at group i: i is open, is not group 0, and every entry is for a
      smaller group. */
  ghost predicate Overruns(root: RootSector, groups: seq<GroupHdr>, i: nat)
    requires root.nrMacs <= RB_MACS_PER_ROOT
  {
    && 0 < i < |groups| && groups[i].v.Some?
    && (forall j :: 0 <= j < root.nrMacs ==> root.macs[j].id < i)
  }

  /** What the scan is for: flag exactly the open groups that the table does not vouch for. */
  ghost function Flagged(c: Codec, root: RootSector, groups: seq<GroupHdr>, i: nat): (r: GroupHdr)
    requires i < |groups|
  {
    if groups[i].v.Some? && !Vouched(c, root, i, groups[i].v.value.keys.rollback) then FlagRollback(groups[i])
    else groups[i]
  }

  /** Entries before j are all for groups before i. */
  ghost predicate Passed(root: RootSector, i: nat, j: nat)
    requires j <= RB_MACS_PER_ROOT
  {
    forall k :: 0 <= k < j && k < root.nrMacs ==> root.macs[k].id < i
  }

  /** The scan from (i, j) on: within the table exactly when no open group lies beyond its last entry,
      and then the groups from i on are flagged as they should be. */
  lemma {:induction false} ScanFrom(c: Codec, root: RootSector, groups: seq<GroupHdr>, i: nat, j: nat)
    requires Ordered(root) && i <= |groups| && j <= RB_MACS_PER_ROOT && Passed(root, i, j)
    requires j > root.nrMacs ==> i > 0
    ensures Scan(c, root, groups, i, j).None? <==> exists k :: i <= k && Overruns(root, groups, k)
    ensures var r := Scan(c, root, groups, i, j);
      r.Some? ==> && (forall k :: 0 <= k < i ==> r.value[k] == groups[k])
                  && (forall k :: i <= k < |groups| ==> r.value[k] == Flagged(c, root, groups, k))
    decreases |groups| - i, RB_MACS_PER_ROOT - j
  {
    if i < |groups| {
      if groups[i].v.None? {
        ScanFrom(c, root, groups, i + 1, j);
      } else if j == RB_MACS_PER_ROOT {
        assert root.nrMacs > 0 ==> root.macs[0].id < i;
        assert Overruns(root, groups, i);
      } else if root.macs[j].id < i {
        ScanFrom(c, root, groups, i, j + 1);
      } else {
        NotPassed(c, root, groups, i, j);
        var hdr := Flagged(c, root, groups, i);
        var j' := if j >= root.nrMacs || root.macs[j].id != i then j else j + 1;
        var groups' := groups[i := hdr];
        assert groups[i := groups[i]] == groups;
        assert Scan(c, root, groups, i, j) == Scan(c, root, groups', i + 1, j');
        ScanFrom(c, root, groups', i + 1, j');
        Rest(c, root, groups, i, hdr);
        SameOverrun(root, groups, groups', i);
      }
    }
  }

  lemma SameOverrun(root: RootSector, groups: seq<GroupHdr>, groups': seq<GroupHdr>, i: nat)
    requires root.nrMacs <= RB_MACS_PER_ROOT && !Overruns(root, groups, i)
    requires forall k :: i < k ==> Overruns(root, groups', k) == Overruns(root, groups, k)
    ensures (exists k :: i <= k && Overruns(root, groups, k)) <==>
      (exists k :: i + 1 <= k && Overruns(root, groups', k))
  {
    hide Overruns;
    if k :| i <= k && Overruns(root, groups, k) {
      assert Overruns(root, groups', k);
    }
    if k :| i + 1 <= k && Overruns(root, groups', k) {
      assert Overruns(root, groups, k);
    }
  }

  /** The scan has found the entry for group i if there is one, and does not run off the table here. */
  lemma NotPassed(c: Codec, root: RootSector, groups: seq<GroupHdr>, i: nat, j: nat)
    requires Ordered(root) && i < |groups| && j < RB_MACS_PER_ROOT && Passed(root, i, j) && groups[i].v.Some?
    requires root.macs[j].id >= i && (j > root.nrMacs ==> i > 0)
    ensures !Overruns(root, groups, i)
    ensures Vouched(c, root, i, groups[i].v.value.keys.rollback)
       <==> Entry(root, i, j) && root.macs[j].mac == c.macRoot(groups[i].v.value.keys.rollback, root.area)
    ensures Passed(root, i + 1, if Entry(root, i, j) then j + 1 else j)
  {
    forall k: nat | Entry(root, i, k) ensures k == j {
    }
  }

  /** Changing group i does not matter for the groups after it. */
  lemma Rest(c: Codec, root: RootSector, groups: seq<GroupHdr>, i: nat, hdr: GroupHdr)
    requires i < |groups| && root.nrMacs <= RB_MACS_PER_ROOT
    ensures forall k :: i < k < |groups| ==> Flagged(c, root, groups[i := hdr], k) == Flagged(c, root, groups, k)
    ensures forall k :: i < k ==> Overruns(root, groups[i := hdr], k) == Overruns(root, groups, k)
  {
  }

  /** The whole scan. */
  lemma ScanExact(c: Codec, root: RootSector, groups: seq<GroupHdr>)
    requires Ordered(root)
    ensures Scan(c, root, groups, 0, 0).None? <==> exists i :: Overruns(root, groups, i)
    ensures var r := Scan(c, root, groups, 0, 0);
      r.Some? ==> forall i :: 0 <= i < |groups| ==> r.value[i] == Flagged(c, root, groups, i)
  {
    ScanFrom(c, root, groups, 0, 0);
  }

  /** What the scan makes of a group: nothing but the flag changes, and with it the location; the flag is set
      exactly if it was or the table does not vouch for the group. */
  ghost predicate Judged(c: Codec, root: RootSector, i: nat, was: GroupHdr, hdr: GroupHdr) {
    if was.v.None? then hdr == was
    else
      && hdr.v.Some?
      && var g, g' := was.v.value, hdr.v.value;
         var vouched := Vouched(c, root, i, g.keys.rollback);
         && (g'.details.rollback <==> g.details.rollback || !vouched)
         && hdr.loc == (if !vouched && !g.details.rollback then 0 else was.loc)
         && hdr.hash == was.hash && hdr.inuse == was.inuse
         && g'.details.(rollback := g.details.rollback) == g.details && g'.(details := g.details) == g
  }

  lemma ScanJudges(c: Codec, root: RootSector, groups: seq<GroupHdr>)
    requires Ordered(root) && Scan(c, root, groups, 0, 0).Some?
    ensures forall i :: 0 <= i < |groups| ==> Judged(c, root, i, groups[i], Scan(c, root, groups, 0, 0).value[i])
  {
    hide Scan, Vouched;
    ScanExact(c, root, groups);
    forall i | 0 <= i < |groups| ensures Judged(c, root, i, groups[i], Scan(c, root, groups, 0, 0).value[i]) {
      FlaggedJudged(c, root, groups, i);
    }
  }

  lemma FlaggedJudged(c: Codec, root: RootSector, groups: seq<GroupHdr>, i: nat)
    requires i < |groups|
    ensures Judged(c, root, i, groups[i], Flagged(c, root, groups, i))
  {
    hide Vouched;
  }

  /** Open groups that are not flagged get a MAC. */
  predicate Signs(hdr: GroupHdr) {
    hdr.v.Some? && !hdr.v.value.details.rollback
  }

  /** The table as the writer fills it from the first i groups. */
  ghost predicate TabledUpTo(c: Codec, area: RootArea, groups: seq<GroupHdr>, macs: seq<MacEntry>, nr: nat, i: nat) {
    && nr <= RB_MACS_PER_ROOT == |macs| && i <= |groups|
    && Ascending(macs, nr)
    && (forall j :: 0 <= j < nr ==>
          && macs[j].id < i && Signs(groups[macs[j].id])
          && macs[j].mac == c.macRoot(groups[macs[j].id].v.value.keys.rollback, area))
    && (forall j :: nr <= j < RB_MACS_PER_ROOT ==> macs[j].id == 0)
    && AllEntered(groups, macs, nr, i)
  }

  predicate Ascending(macs: seq<MacEntry>, nr: nat)
    requires nr <= |macs|
  {
    forall j, k :: 0 <= j < k < nr ==> macs[j].id < macs[k].id
  }

  /** Every one of the first i groups that signs has an entry. */
  ghost predicate AllEntered(groups: seq<GroupHdr>, macs: seq<MacEntry>, nr: nat, i: nat)
    requires nr <= |macs| && i <= |groups|
  {
    forall k :: 0 <= k < i && Signs(groups[k]) ==> exists j :: 0 <= j < nr && macs[j].id == k
  }

  /** The table holds a MAC for every group that signs, or for the first ones if they are too many. */
  ghost predicate Tabled(c: Codec, root: RootSector, groups: seq<GroupHdr>) {
    exists i :: TabledUpTo(c, root.area, groups, root.macs, root.nrMacs, i)
             && (i == |groups| || root.nrMacs == RB_MACS_PER_ROOT)
  }

  function BlankMacs(): (r: seq<MacEntry>)
    ensures |r| == RB_MACS_PER_ROOT && forall j :: 0 <= j < |r| ==> r[j].id == 0
  {
    seq(RB_MACS_PER_ROOT, _ => MacEntry(0, Zeros(16)))
  }

  function MakeEntry(c: Codec, id: nat, key: Key, area: RootArea): (r: MacEntry) {
    MacEntry(id, c.macRoot(key, area))
  }

  /** The loop of disk_write_root_sector over the groups. */
  method SignRoot(c: Codec, area: RootArea, groups: seq<GroupHdr>) returns (nr: nat, macs: seq<MacEntry>)
    ensures exists i :: TabledUpTo(c, area, groups, macs, nr, i) && (i == |groups| || nr == RB_MACS_PER_ROOT)
    ensures nr <= |macs| == RB_MACS_PER_ROOT && forall j :: 0 <= j < nr ==>
      && macs[j].id < |groups| && groups[macs[j].id].v.Some?
      && var g := groups[macs[j].id].v.value;
         !g.details.rollback && macs[j].mac == c.macRoot(g.keys.rollback, area)
    ensures nr < RB_MACS_PER_ROOT ==> forall i :: 0 <= i < |groups| && groups[i].v.Some? ==>
      (groups[i].v.value.details.rollback <==> forall j :: 0 <= j < nr ==> macs[j].id != i)
  {
    var i := 0;
    nr, macs := 0, BlankMacs();
    while i < |groups|
      invariant TabledUpTo(c, area, groups, macs, nr, i)
    {
      if !Signs(groups[i]) {
        i := i + 1;
        continue;
      }
      if nr >= RB_MACS_PER_ROOT {
        break;
      }
      TabledNext(c, area, groups, macs, nr, i);
      macs := macs[nr := MakeEntry(c, i, groups[i].v.value.keys.rollback, area)];
      i, nr := i + 1, nr + 1;
    }
  }

  /** One more entry. */
  lemma TabledNext(c: Codec, area: RootArea, groups: seq<GroupHdr>, macs: seq<MacEntry>, nr: nat, i: nat)
    requires i < |groups| && Signs(groups[i]) && nr < RB_MACS_PER_ROOT && TabledUpTo(c, area, groups, macs, nr, i)
    ensures |macs| == RB_MACS_PER_ROOT
    ensures TabledUpTo(c, area, groups, macs[nr := MakeEntry(c, i, groups[i].v.value.keys.rollback, area)], nr + 1,
                       i + 1)
  {
    hide Ascending, AllEntered;
    var entry := MakeEntry(c, i, groups[i].v.value.keys.rollback, area);
    AscendingNext(macs, nr, entry);
    EnteredNext(groups, macs, nr, i, entry);
  }

  lemma AscendingNext(macs: seq<MacEntry>, nr: nat, entry: MacEntry)
    requires nr < |macs| && Ascending(macs, nr) && forall j :: 0 <= j < nr ==> macs[j].id < entry.id
    ensures Ascending(macs[nr := entry], nr + 1)
  {
  }

  lemma EnteredNext(groups: seq<GroupHdr>, macs: seq<MacEntry>, nr: nat, i: nat, entry: MacEntry)
    requires nr < |macs| && i < |groups| && entry.id == i && AllEntered(groups, macs, nr, i)
    ensures AllEntered(groups, macs[nr := entry], nr + 1, i + 1)
  {
    var macs' := macs[nr := entry];
    forall k | 0 <= k < i + 1 && Signs(groups[k]) ensures exists j :: 0 <= j < nr + 1 && macs'[j].id == k {
      if k == i {
        assert macs'[nr].id == k;
      } else {
        var j :| 0 <= j < nr && macs[j].id == k;
        assert macs'[j].id == k;
      }
    }
  }

  /** The loaded group is the written one, or has stayed closed. */
  ghost predicate Reopened(hdr: GroupHdr, written: GroupHdr) {
    hdr.v.Some? ==>
      && written.v.Some?
      && hdr.v.value.keys == written.v.value.keys
      && hdr.v.value.details == written.v.value.details
  }

  /** After an unmodified write of at most RB_MACS_PER_ROOT signing groups, the scan flags nothing; it
      stays within the table exactly when group 0 is the only open group or some group that signed
      lies at or beyond the last open one. */
  lemma UnmodifiedFlagsNone(c: Codec, root: RootSector, written: seq<GroupHdr>, groups: seq<GroupHdr>)
    requires |groups| == |written| && TabledUpTo(c, root.area, written, root.macs, root.nrMacs, |written|)
    requires forall i :: 0 <= i < |groups| ==> Reopened(groups[i], written[i])
    ensures Scan(c, root, groups, 0, 0) in {None, Some(groups)}
    ensures Scan(c, root, groups, 0, 0).Some? <==>
      forall i :: 0 < i < |groups| && groups[i].v.Some? ==> exists k :: i <= k < |groups| && Signs(written[k])
  {
    assert Ordered(root);
    hide Scan, TabledUpTo, Reopened, Flagged, Signs;
    ScanExact(c, root, groups);
    forall i | 0 <= i < |groups| ensures Flagged(c, root, groups, i) == groups[i] {
      NotFlagged(c, root, written, groups, i);
    }
    var scanned := Scan(c, root, groups, 0, 0);
    if scanned.Some? {
      assert scanned.value == groups;
    }
    forall i | 0 <= i < |groups|
      ensures Overruns(root, groups, i) <==>
        0 < i && groups[i].v.Some? && !exists k :: i <= k < |groups| && Signs(written[k])
    {
      OverrunsBeyondLast(c, root, written, groups, i);
    }
  }

  lemma NotFlagged(c: Codec, root: RootSector, written: seq<GroupHdr>, groups: seq<GroupHdr>, i: nat)
    requires |groups| == |written| && TabledUpTo(c, root.area, written, root.macs, root.nrMacs, |written|)
    requires i < |groups| && Reopened(groups[i], written[i])
    ensures Flagged(c, root, groups, i) == groups[i]
  {
    if Signs(groups[i]) {
      var j :| 0 <= j < root.nrMacs && root.macs[j].id == i;
      assert Entry(root, i, j);
    }
  }

  lemma OverrunsBeyondLast(c: Codec, root: RootSector, written: seq<GroupHdr>, groups: seq<GroupHdr>, i: nat)
    requires |groups| == |written| && TabledUpTo(c, root.area, written, root.macs, root.nrMacs, |written|)
    requires i < |groups|
    ensures Overruns(root, groups, i) <==>
      0 < i && groups[i].v.Some? && !exists k :: i <= k < |groups| && Signs(written[k])
  {
    if k :| i <= k < |groups| && Signs(written[k]) {
      var j :| 0 <= j < root.nrMacs && root.macs[j].id == k;
    } else {
      assert forall j :: 0 <= j < root.nrMacs ==> Signs(written[root.macs[j].id]);
    }
  }
}
