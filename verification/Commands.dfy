/**
 The commands that change vTPMs, on top of the table and the sync.  Each keeps the store coherent.
 */
module Commands {
  import opened Wrappers
  import opened Bytes
  import opened DiskFormat
  import opened IndexTree
  import opened DiskLoad
  import opened DiskIo
  import opened Stored
  import opened GroupWrite
  import opened Populate
  import opened Rollback
  import opened Reload
  import opened Sync
  import opened StoreTheorems
  import opened VtpmTable

  const SEQUENCES: nat := 0x1_0000_0000_0000_0000

  /* Coherence under edits of one group. */

  lemma OpenPages(c: Codec, disk: Disk, key: Key, hdr: GroupHdr)
    requires Sized(c) && Coherent(c, disk, key, hdr) && hdr.v.Some?
    ensures Paged(hdr.v.value)
    ensures PagesReady(c, disk, AllDynamic(), key, hdr.v.value.keys.group, hdr.v.value.pages, 0, |hdr.v.value.pages|)
  {
    hide Resolve, LoadPages, LoadPage;
    if hdr.loc != 0 {
      var v :| KeptVersion(c, disk, AllDynamic(), key, hdr, v);
      var g, stored := hdr.v.value, v.value;
      forall k | 0 <= k < |g.pages| && g.pages[k].loc != 0
        ensures PageKept(c, disk, AllDynamic(), key, g.keys.group, g.pages[k], VTPMS_PER_SECTOR * k)
      {
        VersionPage(c, disk, key, hdr.(v := v), k);
        SamePage(c, disk, key, g.keys.group, stored.pages[k], g.pages[k], VTPMS_PER_SECTOR * k);
      }
    }
  }

  /** Page cache coherence: in a coherent store a page of an open group that is not dirty is on disk, its
      hash is that of the sector's contents, and these decrypt to the page's vTPMs with masked flags. */
  lemma CleanPageOnDisk(c: Codec, disk: Disk, key: Key, hdr: GroupHdr, k: nat)
    requires Sized(c) && Coherent(c, disk, key, hdr) && hdr.v.Some? && k < |hdr.v.value.pages|
    requires hdr.v.value.pages[k].loc != 0
    ensures var page, groupKey := hdr.v.value.pages[k], hdr.v.value.keys.group;
      var sector := c.openPage(key, Read(disk, page.loc));
      && sector.Some? && c.hashPage(sector.value) == page.hash && |page.vtpms| <= VTPMS_PER_SECTOR
      && Decode(c, groupKey, sector.value, |page.vtpms|, VTPMS_PER_SECTOR * k) == Masked(page.vtpms)
  {
    OpenPages(c, disk, key, hdr);
    hide Coherent, Decode, Masked;
    assert PageKept(c, disk, AllDynamic(), key, hdr.v.value.keys.group, hdr.v.value.pages[k], VTPMS_PER_SECTOR * k);
  }

  lemma VersionPage(c: Codec, disk: Disk, key: Key, hdr: GroupHdr, k: nat)
    requires Sized(c) && GroupKept(c, disk, AllDynamic(), key, hdr) && hdr.v.Some? && k < |hdr.v.value.pages|
    ensures PageKept(c, disk, AllDynamic(), key, hdr.v.value.keys.group, hdr.v.value.pages[k], VTPMS_PER_SECTOR * k)
  {
    hide Resolve, LoadPages, PageKept;
    var sector, leaves :| KeptAs(c, disk, AllDynamic(), key, hdr, sector, leaves);
  }

  lemma SamePage(c: Codec, disk: Disk, key: Key, groupKey: Key, p: Page, q: Page, base: nat)
    requires Sized(c) && SameStored(q, p) && PageOk(q, base)
    requires PageKept(c, disk, AllDynamic(), key, groupKey, p, base)
    ensures PageKept(c, disk, AllDynamic(), key, groupKey, q, base)
  {
    hide LoadPage, Masked, Dynamic;
    assert |Masked(p.vtpms)| == |Masked(q.vtpms)|;
  }

  /** A group may change in any way that leaves its clean pages alone, once its header is cleared. */
  lemma StaleCoherent(c: Codec, disk: Disk, key: Key, hdr: GroupHdr, g: Group)
    requires Sized(c) && Coherent(c, disk, key, hdr) && hdr.v.Some? && Paged(g)
    requires forall k :: 0 <= k < |g.pages| && g.pages[k].loc != 0 ==>
      && g.keys.group == hdr.v.value.keys.group
      && k < |hdr.v.value.pages| && SameStored(g.pages[k], hdr.v.value.pages[k])
    ensures Coherent(c, disk, key, hdr.(loc := 0, v := Some(g)))
  {
    OpenPages(c, disk, key, hdr);
    hide Coherent, PageKept, SameStored;
    forall k | 0 <= k < |g.pages| && g.pages[k].loc != 0
      ensures PageKept(c, disk, AllDynamic(), key, g.keys.group, g.pages[k], VTPMS_PER_SECTOR * k)
    {
      var old' := hdr.v.value.pages[k];
      assert old'.loc != 0 by { SameLoc(g.pages[k], old'); }
      SamePage(c, disk, key, g.keys.group, old', g.pages[k], VTPMS_PER_SECTOR * k);
    }
    StaleIsCoherent(c, disk, key, hdr.(loc := 0, v := Some(g)));
  }

  lemma SameLoc(p: Page, q: Page)
    requires SameStored(p, q)
    ensures p.loc == q.loc
  {
  }

  lemma StaleIsCoherent(c: Codec, disk: Disk, key: Key, hdr: GroupHdr)
    requires Sized(c) && hdr.loc == 0 && hdr.v.Some? && Paged(hdr.v.value)
    requires forall k :: 0 <= k < |hdr.v.value.pages| && hdr.v.value.pages[k].loc != 0 ==>
      PageKept(c, disk, AllDynamic(), key, hdr.v.value.keys.group, hdr.v.value.pages[k], VTPMS_PER_SECTOR * k)
    ensures Coherent(c, disk, key, hdr)
  {
  }

  /** A clean header may fall behind: the version on disk stays the one that it was. */
  lemma LagCoherent(c: Codec, disk: Disk, key: Key, hdr: GroupHdr, g: Group)
    requires Sized(c) && Coherent(c, disk, key, hdr) && hdr.v.Some? && Behind(hdr.v.value, g)
    ensures Coherent(c, disk, key, hdr.(v := Some(g)))
    ensures forall v :: hdr.loc != 0 && KeptVersion(c, disk, AllDynamic(), key, hdr, v) ==>
      KeptVersion(c, disk, AllDynamic(), key, hdr.(v := Some(g)), v)
  {
    var hdr' := hdr.(v := Some(g));
    if hdr.loc == 0 {
      StaleCoherent(c, disk, key, hdr, g);
      assert hdr' == hdr.(loc := 0, v := Some(g));
    } else {
      forall v | KeptVersion(c, disk, AllDynamic(), key, hdr, v)
        ensures KeptVersion(c, disk, AllDynamic(), key, hdr', v)
      {
        hide GroupKept;
        assert hdr'.(v := v) == hdr.(v := v);
        BehindTrans(v.value, hdr.v.value, g);
      }
      hide KeptVersion;
      var v :| KeptVersion(c, disk, AllDynamic(), key, hdr, v);
      assert KeptVersion(c, disk, AllDynamic(), key, hdr', v);
    }
  }

  lemma BehindTrans(a: Group, b: Group, d: Group)
    requires Behind(a, b) && Behind(b, d)
    ensures Behind(a, d)
  {
    hide Paged;
  }

  /** Two versions of a group that are on disk under the same header have as many vTPMs. */
  lemma VersionSize(c: Codec, disk: Disk, key: Key, hdr: GroupHdr, a: Group, b: Group)
    requires Sized(c) && GroupKept(c, disk, AllDynamic(), key, hdr.(v := Some(a)))
    requires GroupKept(c, disk, AllDynamic(), key, hdr.(v := Some(b)))
    ensures a.nrVtpms == b.nrVtpms
  {
    hide Resolve, LoadPages, PagesKept, Paged;
    var s, l :| KeptAs(c, disk, AllDynamic(), key, hdr.(v := Some(a)), s, l);
    var t, m :| KeptAs(c, disk, AllDynamic(), key, hdr.(v := Some(b)), t, m);
  }

  /** A group with fewer vTPMs than before, under the same header, is not what the disk has. */
  lemma DeletedNotInSync(c: Codec, disk: Disk, key: Key, hdr: GroupHdr, g: Group)
    requires Sized(c) && Coherent(c, disk, key, hdr) && hdr.v.Some? && g.nrVtpms < hdr.v.value.nrVtpms
    ensures !InSync(c, disk, key, hdr.(v := Some(g)))
  {
    hide GroupStale, Resolve, LoadPages, PagesKept, Paged, Matches;
    var hdr' := hdr.(v := Some(g));
    if InSync(c, disk, key, hdr') {
      assert hdr.loc != 0;
      var v :| KeptVersion(c, disk, AllDynamic(), key, hdr, v);
      assert hdr'.(v := v) == hdr.(v := v) && hdr'.(v := Some(g)) == hdr';
      VersionSize(c, disk, key, hdr', v.value, g);
    }
  }

  /* Commands. */

  datatype GroupDepth = Plain(depth: Depth) | KeyUpdate(keys: GroupKeys)

  /** vtpm_sync_group's changes to the group: out of date, one later in sequence, and on a key update
      under new keys with every page dirty. */
  function Marked(hdr: GroupHdr, depth: GroupDepth): (r: GroupHdr)
    requires hdr.v.Some?
  {
    var g := hdr.v.value;
    var next := g.(details := g.details.(sequence := (g.details.sequence + 1) % SEQUENCES));
    hdr.(loc := 0, v := Some(
      if depth.Plain? then next
      else next.(keys := depth.keys, sealValid := false,
                 pages := seq(|g.pages|, k requires 0 <= k < |g.pages| => g.pages[k].(loc := 0)))))
  }

  lemma MarkedCoherent(c: Codec, disk: Disk, key: Key, hdr: GroupHdr, depth: GroupDepth)
    requires Sized(c) && Coherent(c, disk, key, hdr) && hdr.v.Some?
    ensures Coherent(c, disk, key, Marked(hdr, depth))
    ensures Paged(hdr.v.value) && Paged(Marked(hdr, depth).v.value)
    ensures Table(Marked(hdr, depth).v.value) == Table(hdr.v.value)
  {
    OpenPages(c, disk, key, hdr);
    hide Coherent, PagesReady;
    StaleCoherent(c, disk, key, hdr, Marked(hdr, depth).v.value);
  }

  /** Writing a group changes none of its vTPMs. */
  lemma WrittenTable(c: Codec, was: GroupHdr, hdr: GroupHdr)
    requires GroupWritten(c, was, hdr) && was.v.Some? && Paged(was.v.value)
    ensures hdr.v.Some? && Paged(hdr.v.value) && Table(hdr.v.value) == Table(was.v.value)
    ensures hdr.v.value.details == was.v.value.details && hdr.v.value.keys == was.v.value.keys
  {
    if was.loc == 0 {
      var g, g' := was.v.value, hdr.v.value;
      forall k | 0 <= k < |g'.pages|
        ensures VTPMS_PER_SECTOR * k <= g'.nrVtpms
        ensures |g'.pages[k].vtpms| == PageSize(g'.nrVtpms, VTPMS_PER_SECTOR * k)
        ensures PageOk(g'.pages[k], VTPMS_PER_SECTOR * k)
      {
      }
      assert Table(g') == Table(g);
    }
  }

  /** Seals that were out of date are made from the keys that the group has now. */
  lemma WrittenSeals(c: Codec, was: GroupHdr, hdr: GroupHdr)
    requires GroupWritten(c, was, hdr) && was.loc == 0 && was.v.Some?
    ensures hdr.v.Some? && (!was.v.value.sealValid ==> SealedFor(c, hdr.v.value, hdr.v.value.boot))
  {
  }

  /** The vTPMs of the groups other than gi are as they were. */
  ghost predicate OthersKept(was: seq<GroupHdr>, groups: seq<GroupHdr>, gi: nat) {
    && |groups| == |was|
    && forall j :: 0 <= j < |was| && j != gi ==> SameVtpms(was[j], groups[j])
  }

  ghost predicate SameVtpms(was: GroupHdr, hdr: GroupHdr) {
    && (hdr.v.Some? <==> was.v.Some?)
    && (was.v.Some? ==>
        Paged(was.v.value) && Paged(hdr.v.value) && Table(hdr.v.value) == Table(was.v.value))
  }

  lemma WrittenOthers(c: Codec, was: seq<GroupHdr>, marked: seq<GroupHdr>, groups: seq<GroupHdr>, gi: nat)
    requires gi < |groups| == |was| == |marked| && AllPaged(was) && marked == was[gi := marked[gi]]
    requires groups == marked || GroupsWritten(c, marked, groups, 0, |marked|)
    ensures OthersKept(was, groups, gi)
  {
    hide Paged, GroupWritten;
    forall j | 0 <= j < |was| && j != gi ensures SameVtpms(was[j], groups[j]) {
      if groups != marked {
        assert GroupWritten(c, marked[j], groups[j]);
        if was[j].v.Some? {
          WrittenTable(c, was[j], groups[j]);
        } else {
          NotWritten(c, was[j], groups[j]);
        }
      }
    }
  }

  lemma NotWritten(c: Codec, was: GroupHdr, hdr: GroupHdr)
    requires GroupWritten(c, was, hdr) && was.v.None?
    ensures hdr == was
  {
  }

  /** vtpm_sync_group: whatever has changed in the group, a complete sync makes it durable. */
  method SyncGroup(store: Store, gi: nat, depth: GroupDepth, counterOk: bool)
    returns (result: Result, ghost wrote: bool)
    requires store.Valid() && gi < |store.groups| && store.groups[gi].v.Some?
    modifies store, store.dev, store.dev.inuse
    ensures result == Skipped || wrote ==> store.Valid() && |store.groups| == old(|store.groups|)
    ensures result in {Done, CounterFailed} ==> wrote
    ensures result != Skipped && wrote ==>
      && InSync(store.c, store.dev.disk, store.keys.tm, store.groups[gi])
      && (forall j :: 0 <= j < |store.groups| && j != gi ==>
            (InSync(store.c, store.dev.disk, store.keys.tm, store.groups[j]) <==>
             old(store.groups)[j].loc == 0
               || InSync(store.c, old(store.dev.disk), store.keys.tm, old(store.groups)[j])))
    ensures result == Skipped || wrote ==> OthersKept(old(store.groups), store.groups, gi)
    ensures result == Skipped ==> store.counter == old(store.counter)
    ensures result != Skipped && wrote && result != Aborted ==>
      store.counter == if (depth.KeyUpdate? || depth.depth == CtrUpdate) && result == Done
                       then (old(store.counter) + 1) % WORD else old(store.counter)
    ensures result == Skipped || wrote ==>
      && store.groups[gi].v.Some? && old(Paged(store.groups[gi].v.value)) && Paged(store.groups[gi].v.value)
      && Table(store.groups[gi].v.value) == old(Table(store.groups[gi].v.value))
      && store.groups[gi].v.value.details.sequence == (old(store.groups[gi].v.value.details.sequence) + 1) % SEQUENCES
      && store.groups[gi].v.value.keys == (if depth.KeyUpdate? then depth.keys else old(store.groups[gi].v.value.keys))
    ensures depth.KeyUpdate? && result != Skipped && wrote ==>
      SealedFor(store.c, store.groups[gi].v.value, store.groups[gi].v.value.boot)
    ensures depth.KeyUpdate? && result == Skipped ==>
      && !store.groups[gi].v.value.sealValid
      && forall k :: 0 <= k < |store.groups[gi].v.value.pages| ==> store.groups[gi].v.value.pages[k].loc == 0
  {
    hide Coherent, SyncStep, Published, GroupWritten, Tabled, ExactlyUsed, Faithful, InSync, Paged, OthersKept,
         SameVtpms;
    ghost var was, all := store.groups[gi], store.groups;
    CoherentPaged(store.c, store.dev.disk, store.keys.tm, all);
    MarkedCoherent(store.c, store.dev.disk, store.keys.tm, was, depth);
    store.groups := store.groups[gi := Marked(store.groups[gi], depth)];
    ghost var marked := store.groups;
    ghost var root, leaves;
    result, wrote, root, leaves :=
      store.SyncDisk(if depth.Plain? then depth.depth else CtrUpdate, counterOk);
    if result == Skipped {
      assert store.groups[gi] == Marked(was, depth);
      WrittenOthers(store.c, all, marked, store.groups, gi);
    } else if wrote {
      assert GroupWritten(store.c, marked[gi], store.groups[gi]);
      WrittenTable(store.c, marked[gi], store.groups[gi]);
      WrittenSeals(store.c, marked[gi], store.groups[gi]);
      WrittenOthers(store.c, all, marked, store.groups, gi);
    }
  }

  /** Replaces the i-th vTPM of the group; its page becomes dirty if asked. */
  function Replaced(g: Group, i: nat, v: Vtpm, dirty: bool): (r: Group)
    requires i / VTPMS_PER_SECTOR < |g.pages| && i % VTPMS_PER_SECTOR < |g.pages[i / VTPMS_PER_SECTOR].vtpms|
  {
    var pg, vt := i / VTPMS_PER_SECTOR, i % VTPMS_PER_SECTOR;
    var page := g.pages[pg];
    g.(pages := g.pages[pg := page.(vtpms := page.vtpms[vt := v], loc := if dirty then 0 else page.loc)])
  }

  lemma ReplacedTable(g: Group, i: nat, v: Vtpm, dirty: bool)
    requires Paged(g) && i < g.nrVtpms && v.index == i
    requires i / VTPMS_PER_SECTOR < |g.pages| && i % VTPMS_PER_SECTOR < |g.pages[i / VTPMS_PER_SECTOR].vtpms|
    ensures Paged(Replaced(g, i, v, dirty)) && Table(Replaced(g, i, v, dirty)) == Table(g)[i := v]
  {
    var g' := Replaced(g, i, v, dirty);
    forall k | 0 <= k < |g'.pages|
      ensures |g'.pages[k].vtpms| == PageSize(g'.nrVtpms, VTPMS_PER_SECTOR * k)
      ensures PageOk(g'.pages[k], VTPMS_PER_SECTOR * k)
    {
    }
    forall j | 0 <= j < g.nrVtpms ensures Table(g')[j] == Table(g)[i := v][j] {
      Located(g, j);
      if j != i && j / VTPMS_PER_SECTOR == i / VTPMS_PER_SECTOR {
        assert j % VTPMS_PER_SECTOR != i % VTPMS_PER_SECTOR;
      }
    }
  }

  /** vtpm_sync after an edit that left the group in g: the vTPM's page and the header are marked, and
      the group is written. */
  method SyncVtpm(store: Store, gi: nat, g: Group, i: nat, counterOk: bool) returns (result: Result, ghost wrote: bool)
    requires store.Valid() && gi < |store.groups| && store.groups[gi].v.Some?
    requires var was := store.groups[gi].v.value;
      && g == was.(pages := g.pages, nrVtpms := g.nrVtpms) && Paged(g) && i < g.nrVtpms
      && forall k :: 0 <= k < |g.pages| && k != i / VTPMS_PER_SECTOR && g.pages[k].loc != 0 ==>
        k < |was.pages| && g.pages[k] == was.pages[k]
    modifies store, store.dev, store.dev.inuse
    ensures result == Skipped || wrote ==> store.Valid() && |store.groups| == old(|store.groups|)
    ensures result in {Done, CounterFailed} ==> wrote
    ensures result != Skipped && wrote ==> InSync(store.c, store.dev.disk, store.keys.tm, store.groups[gi])
    ensures result == Skipped || wrote ==> OthersKept(old(store.groups), store.groups, gi)
    ensures result == Skipped || wrote ==>
      && store.groups[gi].v.Some? && Paged(store.groups[gi].v.value)
      && Table(store.groups[gi].v.value) == Table(g)
  {
    hide Coherent, InSync, Faithful;
    Located(g, i);
    var v := At(g, i);
    var dirty := Replaced(g, i, v, true);
    ReplacedTable(g, i, v, true);
    assert Table(dirty) == Table(g);
    StaleCoherent(store.c, store.dev.disk, store.keys.tm, store.groups[gi], dirty);
    store.groups := store.groups[gi := store.groups[gi].(loc := 0, v := Some(dirty))];
    result, wrote := SyncGroup(store, gi, Plain(SeqUpdate), counterOk);
  }

  /** vtpmmgr_VtpmNew. */
  method VtpmNew(store: Store, gi: nat, uuid: Blob, counterOk: bool) returns (result: Result, ghost wrote: bool)
    requires store.Valid() && gi < |store.groups| && store.groups[gi].v.Some?
    modifies store, store.dev, store.dev.inuse
    ensures result == Skipped || wrote ==> store.Valid() && |store.groups| == old(|store.groups|)
    ensures result in {Done, CounterFailed} ==> wrote
    ensures result != Skipped && wrote ==> InSync(store.c, store.dev.disk, store.keys.tm, store.groups[gi])
    ensures result == Skipped || wrote ==> OthersKept(old(store.groups), store.groups, gi)
    ensures result == Skipped || wrote ==>
      && store.groups[gi].v.Some? && old(Paged(store.groups[gi].v.value)) && Paged(store.groups[gi].v.value)
      && var table := old(Table(store.groups[gi].v.value));
         Table(store.groups[gi].v.value) == table + [Vtpm(uuid, Zeros(DATA_SIZE), 0, |table|)]
  {
    hide Coherent, InSync, Faithful, Paged;
    var g := store.groups[gi].v.value;
    OpenPages(store.c, store.dev.disk, store.keys.tm, store.groups[gi]);
    var ok, g' := Create(g, uuid);
    result, wrote := SyncVtpm(store, gi, g', g.nrVtpms, counterOk);
  }

  datatype Reply = Success | BadParameter | Fail | Disabled

  /** The end of vtpmmgr_SaveHashKey, for the vTPM that the caller has opened. */
  method Save(store: Store, gi: nat, i: nat, buf: Blob, counterOk: bool)
    returns (reply: Reply, result: Result, ghost wrote: bool)
    requires store.Valid() && gi < |store.groups| && store.groups[gi].v.Some? && i < store.groups[gi].v.value.nrVtpms
    modifies store, store.dev, store.dev.inuse
    ensures reply == (if 52 <= |buf| <= DATA_SIZE then Success else BadParameter)
    ensures reply == BadParameter ==>
      store.Valid() && store.groups == old(store.groups) && Now(store.dev) == old(Now(store.dev))
    ensures result == Skipped || wrote ==> store.Valid() && |store.groups| == old(|store.groups|)
    ensures reply == Success && result in {Done, CounterFailed} ==> wrote
    ensures reply == Success && result != Skipped && wrote ==>
      InSync(store.c, store.dev.disk, store.keys.tm, store.groups[gi])
    ensures reply == Success && (result == Skipped || wrote) ==> OthersKept(old(store.groups), store.groups, gi)
    ensures reply == Success && (result == Skipped || wrote) ==>
      && store.groups[gi].v.Some? && old(Paged(store.groups[gi].v.value)) && Paged(store.groups[gi].v.value)
      && var table := old(Table(store.groups[gi].v.value));
         Table(store.groups[gi].v.value) == table[i := table[i].(data := Stored64(buf))]
  {
    hide Coherent, InSync, Faithful;
    if !(52 <= |buf| <= DATA_SIZE) {
      return BadParameter, Skipped, false;
    }
    var g := store.groups[gi].v.value;
    OpenPages(store.c, store.dev.disk, store.keys.tm, store.groups[gi]);
    Located(g, i);
    assert Table(g)[i] == At(g, i);
    var v := At(g, i).(data := Stored64(buf));
    ReplacedTable(g, i, v, false);
    reply := Success;
    result, wrote := SyncVtpm(store, gi, Replaced(g, i, v, false), i, counterOk);
  }

  /** The UUID is in an open group. */
  ghost predicate Known(groups: seq<GroupHdr>, uuid: Blob)
    requires AllPaged(groups)
  {
    exists x :: 0 <= x < |groups| && groups[x].v.Some? && !Lacks(groups[x].v.value, uuid)
  }

  ghost predicate AllPaged(groups: seq<GroupHdr>) {
    forall x :: 0 <= x < |groups| && groups[x].v.Some? ==> Paged(groups[x].v.value)
  }

  lemma CoherentPaged(c: Codec, disk: Disk, key: Key, groups: seq<GroupHdr>)
    requires Sized(c) && forall i :: 0 <= i < |groups| ==> Coherent(c, disk, key, groups[i])
    ensures AllPaged(groups)
  {
    hide Coherent, Paged;
    forall x | 0 <= x < |groups| && groups[x].v.Some? ensures Paged(groups[x].v.value) {
      OpenPages(c, disk, key, groups[x]);
    }
  }

  lemma EditedBehind(g: Group, g': Group)
    requires Edited(g, g') && g'.nrVtpms <= g.nrVtpms
    ensures Behind(g, g')
  {
    hide Paged;
  }

  /** vtpmmgr_VtpmDel: succeeds exactly for a known vTPM that is not open, and takes it out of memory.  It
      does not mark the group: what is on disk stays the version that it was, so that after the command
      the group is never in sync, and a later sync makes the deletion durable only once something else
      has marked the group. */
  method VtpmDel(store: Store, uuid: Blob) returns (reply: Reply, gi: nat, i: nat)
    requires store.Valid()
    modifies store`groups
    ensures store.Valid() && AllPaged(old(store.groups)) && AllPaged(store.groups)
    ensures |store.groups| == old(|store.groups|)
    ensures gi < |store.groups| <==> Known(old(store.groups), uuid)
    ensures gi < |store.groups| ==>
      && old(store.groups)[gi].v.Some? && i < old(store.groups)[gi].v.value.nrVtpms
      && Table(old(store.groups)[gi].v.value)[i].uuid == uuid
    ensures reply == Success <==> gi < |store.groups| && !IsOpen(Table(old(store.groups)[gi].v.value)[i])
    ensures reply != Success ==> reply == Fail && store.groups == old(store.groups)
    ensures reply == Success ==>
      && store.groups == old(store.groups)[gi := store.groups[gi]]
      && store.groups[gi] == old(store.groups)[gi].(v := store.groups[gi].v) && store.groups[gi].v.Some?
      && Table(store.groups[gi].v.value) == Without(Table(old(store.groups)[gi].v.value), i)
      && !InSync(store.c, store.dev.disk, store.keys.tm, store.groups[gi])
      && (old(store.groups)[gi].loc != 0 ==> forall v ::
            KeptVersion(store.c, store.dev.disk, AllDynamic(), store.keys.tm, old(store.groups)[gi], v) ==>
            KeptVersion(store.c, store.dev.disk, AllDynamic(), store.keys.tm, store.groups[gi], v))
  {
    hide Coherent, InSync, Faithful, Paged, KeptVersion;
    CoherentPaged(store.c, store.dev.disk, store.keys.tm, store.groups);
    var found;
    found, gi, i := Find(store.groups, uuid);
    if !found {
      return Fail, gi, i;
    }
    assert !Lacks(store.groups[gi].v.value, uuid);
    var g := store.groups[gi].v.value;
    var refused, g' := Delete(g, i);
    if refused {
      return Fail, gi, i;
    }
    EditedBehind(g, g');
    LagCoherent(store.c, store.dev.disk, store.keys.tm, store.groups[gi], g');
    DeletedNotInSync(store.c, store.dev.disk, store.keys.tm, store.groups[gi], g');
    store.groups := store.groups[gi := store.groups[gi].(v := Some(g'))];
    CoherentPaged(store.c, store.dev.disk, store.keys.tm, store.groups);
    reply := Success;
  }

  /** Page k of n is the last of its leaf: the one that stays when the page pointer does not advance. */
  predicate LastOfLeaf(n: nat, k: nat) {
    k + 1 == n || (k + 1) % LeafPages(n) == 0
  }

  /** Some page has a vTPM with the UUID. */
  ghost predicate HasUuid(pages: seq<Page>, uuid: Blob) {
    exists k, m :: 0 <= k < |pages| && 0 <= m < |pages[k].vtpms| && pages[k].vtpms[m].uuid == uuid
  }

  ghost predicate DistinctUuids(g: Group)
    requires Paged(g)
  {
    forall x, y :: 0 <= x < y < g.nrVtpms ==> Table(g)[x].uuid != Table(g)[y].uuid
  }

  /** While the version on disk is the one from before a deletion, loading the group brings back what the
      placement of its pages leaves of that version: the whole table if the pages land in their places,
      and else the deleted vTPM exactly if its page is the last of its leaf. */
  lemma DeletionNotDurable(c: Codec, tpm: Tpm, disk: Disk, keys: RootKeys, fixed: bool, hdr: GroupHdr, before: Group,
                           i: nat)
    requires Sized(c) && KeptVersion(c, disk, AllDynamic(), keys.tm, hdr, Some(before)) && hdr.v.Some?
    requires Paged(before) && i < before.nrVtpms && Opens(c, tpm, keys, disk, hdr)
    requires Paged(hdr.v.value) && Table(hdr.v.value) == Without(Table(before), i)
    ensures var r := LoadGroup(c, tpm, disk, keys, fixed, hdr.hash, hdr.loc);
      && r.Some? && r.value.v.Some?
      && (fixed || |before.pages| <= 1 ==>
          && Paged(r.value.v.value) && Table(r.value.v.value) == Masked(Table(before))
          && !Lacks(r.value.v.value, Table(before)[i].uuid))
      && (fixed || LastOfLeaf(|before.pages|, i / VTPMS_PER_SECTOR) ==>
          HasUuid(r.value.v.value.pages, Table(before)[i].uuid))
      && (DistinctUuids(before) && HasUuid(r.value.v.value.pages, Table(before)[i].uuid) ==>
          fixed || LastOfLeaf(|before.pages|, i / VTPMS_PER_SECTOR))
  {
    var stored := hdr.(v := Some(before));
    VersionOpens(c, tpm, keys, disk, hdr, stored);
    hide GroupKept, LoadGroup, LoadPages, Resolve, Behind, HasUuid, DistinctUuids, Place, LastOfLeaf;
    OpeningHonest(c, tpm, disk, AllDynamic(), keys, stored);
    KeptGroupLoads(c, tpm, disk, AllDynamic(), keys, fixed, stored);
    PlacedBack(fixed, before, i);
    if fixed || |before.pages| <= 1 {
      InPlace(fixed, MaskPages(before.pages));
      RestoredTable(before);
      assert Restored(fixed, before) == Restored(true, before);
      assert Table(Restored(true, before))[i].uuid == Table(before)[i].uuid;
    }
  }

  lemma InPlace(fixed: bool, pages: seq<Page>)
    requires fixed || |pages| <= 1
    ensures Place(fixed, pages) == pages && Place(true, pages) == pages
  {
  }

  /** Which vTPMs the placement keeps. */
  lemma PlacedBack(fixed: bool, g: Group, i: nat)
    requires Paged(g) && i < g.nrVtpms
    ensures fixed || LastOfLeaf(|g.pages|, i / VTPMS_PER_SECTOR) ==> HasUuid(Restored(fixed, g).pages, Table(g)[i].uuid)
    ensures DistinctUuids(g) && HasUuid(Restored(fixed, g).pages, Table(g)[i].uuid) ==>
      fixed || LastOfLeaf(|g.pages|, i / VTPMS_PER_SECTOR)
  {
    hide LeafPages, Masked;
    var pages, k, m := Restored(fixed, g).pages, i / VTPMS_PER_SECTOR, i % VTPMS_PER_SECTOR;
    Located(g, i);
    assert MaskPages(g.pages)[k].vtpms[m].uuid == Table(g)[i].uuid by { MaskedUuid(g.pages, k, m); }
    if fixed || LastOfLeaf(|g.pages|, k) {
      var x := PlacedAt(fixed, MaskPages(g.pages), k);
      assert pages[x].vtpms[m].uuid == Table(g)[i].uuid;
    }
    if DistinctUuids(g) && HasUuid(pages, Table(g)[i].uuid) {
      var x, y :| 0 <= x < |pages| && 0 <= y < |pages[x].vtpms| && pages[x].vtpms[y].uuid == Table(g)[i].uuid;
      var from := PlacedFrom(fixed, MaskPages(g.pages), x);
      MaskedUuid(g.pages, from, y);
      SamePlace(g, i, from, y);
    }
  }

  lemma MaskedUuid(pages: seq<Page>, k: nat, m: nat)
    requires k < |pages| && m < |pages[k].vtpms|
    ensures |MaskPages(pages)[k].vtpms| == |pages[k].vtpms|
    ensures MaskPages(pages)[k].vtpms[m].uuid == pages[k].vtpms[m].uuid
  {
  }

  /** A page that stays, and where. */
  lemma PlacedAt(fixed: bool, pages: seq<Page>, k: nat) returns (x: nat)
    requires k < |pages| && (fixed || LastOfLeaf(|pages|, k))
    ensures x < |pages| && Place(fixed, pages)[x] == pages[k]
  {
    if fixed {
      x := k;
    } else {
      if |pages| <= ENTRIES_PER_GROUP {
        LeafOf16(k, |pages|);
        x := k - k % 16;
      } else {
        LeafOf112(k, |pages|);
        x := k - k % 112;
      }
    }
  }

  /** The first page of the leaf that page k is the last of. */
  lemma LeafOf16(k: nat, n: nat)
    requires k < n && (k + 1 == n || (k + 1) % 16 == 0)
    ensures var x := k - k % 16;
      x % 16 == 0 && if x + 16 <= n then x + 16 - 1 == k else k == n - 1
  {
    var q, d := k / 16, k % 16;
    Remainder16(q, 0);
    if d + 1 < 16 {
      Remainder16(q, d + 1);
    }
  }

  lemma Remainder16(q: nat, d: nat)
    requires d < 16
    ensures (16 * q + d) % 16 == d
  {
  }

  lemma LeafOf112(k: nat, n: nat)
    requires k < n && (k + 1 == n || (k + 1) % 112 == 0)
    ensures var x := k - k % 112;
      x % 112 == 0 && if x + 112 <= n then x + 112 - 1 == k else k == n - 1
  {
    var q, d := k / 112, k % 112;
    Remainder112(q, 0);
    if d + 1 < 112 {
      Remainder112(q, d + 1);
    }
  }

  lemma Remainder112(q: nat, d: nat)
    requires d < 112
    ensures (112 * q + d) % 112 == d
  {
  }

  /** Where a page that is not empty came from. */
  lemma PlacedFrom(fixed: bool, pages: seq<Page>, x: nat) returns (k: nat)
    requires x < |pages| && Place(fixed, pages)[x].vtpms != []
    ensures k < |pages| && Place(fixed, pages)[x] == pages[k] && (fixed || LastOfLeaf(|pages|, k))
  {
    var leaf := LeafPages(|pages|);
    if fixed {
      k := x;
    } else if x + leaf <= |pages| {
      k := x + leaf - 1;
      assert (x + leaf) % leaf == x % leaf;
    } else {
      k := |pages| - 1;
    }
  }

  /** With distinct UUIDs, the UUID is in one place. */
  lemma SamePlace(g: Group, i: nat, k: nat, m: nat)
    requires Paged(g) && DistinctUuids(g) && i < g.nrVtpms
    requires k < |g.pages| && m < |g.pages[k].vtpms| && g.pages[k].vtpms[m].uuid == Table(g)[i].uuid
    ensures i / VTPMS_PER_SECTOR == k
  {
    var j := VTPMS_PER_SECTOR * k + m;
    assert j / VTPMS_PER_SECTOR == k && j % VTPMS_PER_SECTOR == m;
    assert j < g.nrVtpms;
    assert Table(g)[j] == At(g, j);
  }

  lemma RestoredTable(g: Group)
    requires Paged(g)
    ensures Paged(Restored(true, g)) && Table(Restored(true, g)) == Masked(Table(g))
  {
    var g' := Restored(true, g);
    forall k | 0 <= k < |g'.pages|
      ensures |g'.pages[k].vtpms| == PageSize(g'.nrVtpms, VTPMS_PER_SECTOR * k)
      ensures PageOk(g'.pages[k], VTPMS_PER_SECTOR * k)
    {
    }
    forall j | 0 <= j < g.nrVtpms ensures Table(g')[j] == Masked(Table(g))[j] {
      Located(g, j);
    }
  }

  /** Setting a flag that is not stored. */
  lemma OpenBehind(g: Group, i: nat)
    requires Paged(g) && i < g.nrVtpms && !IsOpen(Table(g)[i])
    ensures var v := Table(g)[i].(flags := Table(g)[i].flags + FLAG_OPEN);
      && IsOpen(v) && v.index == i
      && i / VTPMS_PER_SECTOR < |g.pages| && i % VTPMS_PER_SECTOR < |g.pages[i / VTPMS_PER_SECTOR].vtpms|
      && Behind(g, Replaced(g, i, v, false))
  {
    Located(g, i);
    var v := Table(g)[i].(flags := Table(g)[i].flags + FLAG_OPEN);
    ReplacedTable(g, i, v, false);
    var g' := Replaced(g, i, v, false);
    var pg, vt := i / VTPMS_PER_SECTOR, i % VTPMS_PER_SECTOR;
    assert g.pages[pg].vtpms[vt] == Table(g)[i];
    hide Paged, Masked;
    SameMasked(g.pages[pg].vtpms, vt);
  }

  lemma SameMasked(vtpms: seq<Vtpm>, k: nat)
    requires k < |vtpms|
    ensures Masked(vtpms[k := vtpms[k].(flags := vtpms[k].flags + FLAG_OPEN)]) == Masked(vtpms)
  {
  }

  /** What the search for the UUID finds. */
  ghost predicate FirstAt(groups: seq<GroupHdr>, uuid: Blob, gi: nat, i: nat)
    requires AllPaged(groups)
  {
    && gi < |groups| && groups[gi].v.Some? && i < groups[gi].v.value.nrVtpms
    && Table(groups[gi].v.value)[i].uuid == uuid
    && (forall j :: 0 <= j < i ==> Table(groups[gi].v.value)[j].uuid != uuid)
    && (forall x :: 0 <= x < gi && groups[x].v.Some? ==> Lacks(groups[x].v.value, uuid))
  }

  /** Marks a vTPM as open, which is not stored. */
  method SetOpen(store: Store, gi: nat, i: nat)
    requires store.Valid() && gi < |store.groups| && store.groups[gi].v.Some?
    requires var g := store.groups[gi].v.value;
      Paged(g) && i < g.nrVtpms && !IsOpen(Table(g)[i])
    modifies store`groups
    ensures store.Valid() && gi < |store.groups| && store.groups == old(store.groups)[gi := store.groups[gi]]
    ensures store.groups[gi].v.Some? && Paged(store.groups[gi].v.value)
    ensures var table := Table(old(store.groups)[gi].v.value);
      Table(store.groups[gi].v.value) == table[i := table[i].(flags := table[i].flags + FLAG_OPEN)]
  {
    hide Coherent, InSync, Faithful, Paged, KeptVersion, Behind;
    var g := store.groups[gi].v.value;
    Located(g, i);
    OpenBehind(g, i);
    var v := At(g, i).(flags := At(g, i).flags + FLAG_OPEN);
    assert Table(g)[i] == At(g, i);
    ReplacedTable(g, i, v, false);
    LagCoherent(store.c, store.dev.disk, store.keys.tm, store.groups[gi], Replaced(g, i, v, false));
    store.groups := store.groups[gi := store.groups[gi].(v := Some(Replaced(g, i, v, false)))];
  }

  function Stored64(buf: Blob): (r: Blob)
    requires |buf| <= DATA_SIZE
    ensures |r| == DATA_SIZE && r[..|buf|] == buf
  {
    buf + Zeros(DATA_SIZE - |buf|)
  }

  /** The other end of vtpmmgr_SaveHashKey: a UUID that is not known gets a vTPM in group 0, the first of
      which is the administrator. */
  method SaveNew(store: Store, uuid: Blob, buf: Blob, counterOk: bool) returns (result: Result, ghost wrote: bool)
    requires store.Valid() && |store.groups| > 0 && store.groups[0].v.Some? && |buf| <= DATA_SIZE
    modifies store, store.dev, store.dev.inuse
    ensures result == Skipped || wrote ==> store.Valid() && |store.groups| == old(|store.groups|)
    ensures result in {Done, CounterFailed} ==> wrote
    ensures result != Skipped && wrote ==> InSync(store.c, store.dev.disk, store.keys.tm, store.groups[0])
    ensures result == Skipped || wrote ==> OthersKept(old(store.groups), store.groups, 0)
    ensures result == Skipped || wrote ==>
      && store.groups[0].v.Some? && old(Paged(store.groups[0].v.value)) && Paged(store.groups[0].v.value)
      && var table := old(Table(store.groups[0].v.value));
         Table(store.groups[0].v.value)
         == table + [Vtpm(uuid, Stored64(buf), if table == [] then FLAG_ADMIN else 0, |table|)]
  {
    hide Coherent, InSync, Faithful, Paged, PagesReady, Device.Valid;
    var g := store.groups[0].v.value;
    OpenPages(store.c, store.dev.disk, store.keys.tm, store.groups[0]);
    var ok, created := Create(g, uuid);
    var n := g.nrVtpms;
    Located(created, n);
    assert Table(created)[n] == At(created, n);
    var v := At(created, n).(flags := if created.nrVtpms == 1 then FLAG_ADMIN else 0, data := Stored64(buf));
    ReplacedTable(created, n, v, false);
    result, wrote := SyncVtpm(store, 0, Replaced(created, n, v, false), n, counterOk);
  }
}
