/**
 What it means that memory and disk agree: a page, group or list whose location is set can be loaded
 from there and yields what memory holds.  These facts survive every write to a free sector.
 */
module Stored {
  import opened Wrappers
  import opened DiskFormat
  import opened IndexTree
  import opened DiskLoad
  import opened LoadLaws
  import opened Crash
  import opened DiskIo

  /* The device over time. */

  datatype Snapshot = Snapshot(disk: Disk, used: seq<set<Sector>>, log: seq<Write>)

  ghost function Now(dev: Device): (r: Snapshot)
    reads dev
  {
    Snapshot(dev.disk, dev.used, dev.log)
  }

  /** From a to b, `taken` was allocated to the slot from free dynamic sectors, and nothing else was
      written. */
  ghost predicate Step(a: Snapshot, b: Snapshot, slot: nat, taken: set<Sector>) {
    && slot < 2 && |a.used| == |b.used| == 2
    && b.used[1 - slot] == a.used[1 - slot]
    && b.used[slot] == a.used[slot] + taken
    && taken !! a.used[0] + a.used[1]
    && (forall s :: s in taken ==> Dynamic(s))
    && |a.log| <= |b.log| && b.log[..|a.log|] == a.log
    && (forall w :: w in b.log[|a.log|..] ==> w.sector in taken)
    && b.disk == Apply(a.disk, b.log[|a.log|..])
  }

  /** There is no free sector left. */
  ghost predicate Full(now: Snapshot) {
    |now.used| == 2 && forall s :: Dynamic(s) ==> s in now.used[0] + now.used[1]
  }

  lemma StepNone(a: Snapshot, slot: nat)
    requires slot < 2 && |a.used| == 2
    ensures Step(a, a, slot, {})
  {
  }

  lemma {:induction false} ApplyConcat(disk: Disk, x: seq<Write>, y: seq<Write>)
    ensures Apply(disk, x + y) == Apply(Apply(disk, x), y)
    decreases |y|
  {
    if y == [] {
      assert x + y == x;
    } else {
      var n := |y| - 1;
      assert (x + y)[..|x + y| - 1] == x + y[..n];
      ApplyConcat(disk, x, y[..n]);
    }
  }

  lemma StepTrans(a: Snapshot, b: Snapshot, d: Snapshot, slot: nat, f: set<Sector>, g: set<Sector>)
    requires Step(a, b, slot, f) && Step(b, d, slot, g)
    ensures Step(a, d, slot, f + g)
  {
    hide Apply, Dynamic;
    LogTrans(a.log, b.log, d.log);
    ApplyConcat(a.disk, b.log[|a.log|..], d.log[|b.log|..]);
  }

  lemma StepSlots(a: Snapshot, b: Snapshot, slot: nat, taken: set<Sector>)
    requires Step(a, b, slot, taken)
    ensures slot < |a.used| == |b.used|
  {
  }

  lemma LogTrans(a: seq<Write>, b: seq<Write>, d: seq<Write>)
    requires |a| <= |b| <= |d| && b[..|a|] == a && d[..|b|] == b
    ensures d[..|a|] == a && d[|a|..] == b[|a|..] + d[|b|..]
  {
    assert d == b + d[|b|..];
  }

  /** One allocation and one write to the allocated sector. */
  lemma StepOne(a: Snapshot, b: Snapshot, slot: nat, s: Sector, blob: Blob)
    requires slot < 2 && |a.used| == |b.used| == 2
    requires Dynamic(s) && s !in a.used[0] + a.used[1]
    requires b.used[1 - slot] == a.used[1 - slot] && b.used[slot] == a.used[slot] + {s}
    requires b.disk == a.disk[s := blob] && b.log == a.log + [Write(s, blob)]
    ensures Step(a, b, slot, {s}) && Read(b.disk, s) == blob
  {
    var tail := b.log[|a.log|..];
    assert tail == [Write(s, blob)];
    assert tail[..0] == [];
    assert Apply(a.disk, tail) == a.disk[s := blob];
  }

  /** Sectors in use keep their contents. */
  lemma StepReads(a: Snapshot, b: Snapshot, slot: nat, taken: set<Sector>, s: Sector)
    requires Step(a, b, slot, taken) && Dynamic(s) && s in a.used[slot]
    ensures Read(b.disk, s) == Read(a.disk, s) && s in b.used[slot]
  {
    ReadApply(a.disk, b.log[|a.log|..], s);
  }

  /** Every sector is dynamic and belongs to the slot. */
  ghost predicate Held(sectors: seq<Sector>, used: set<Sector>) {
    forall s :: s in sectors ==> Dynamic(s) && s in used
  }

  /** The dynamic sectors in `used` keep their contents and are still in use afterwards. */
  ghost predicate Preserves(a: Disk, used: set<Sector>, b: Disk, used': set<Sector>) {
    forall s :: Dynamic(s) && s in used ==> Read(b, s) == Read(a, s) && s in used'
  }

  lemma StepPreserves(a: Snapshot, b: Snapshot, slot: nat, taken: set<Sector>)
    requires Step(a, b, slot, taken)
    ensures slot < |a.used| == |b.used| && Preserves(a.disk, a.used[slot], b.disk, b.used[slot])
  {
    forall s | Dynamic(s) && s in a.used[slot] ensures Read(b.disk, s) == Read(a.disk, s) && s in b.used[slot] {
      StepReads(a, b, slot, taken, s);
    }
  }

  lemma StepAgrees(a: Snapshot, b: Snapshot, slot: nat, taken: set<Sector>, sectors: seq<Sector>)
    requires Step(a, b, slot, taken) && Held(sectors, a.used[slot])
    ensures Agree(a.disk, b.disk, sectors) && Held(sectors, b.used[slot])
  {
    forall s | s in sectors ensures Read(a.disk, s) == Read(b.disk, s) && Dynamic(s) && s in b.used[slot] {
      StepReads(a, b, slot, taken, s);
    }
  }

  /* Lists. */

  /** The tree at (hashes, locs) lists the entries hs, ls from base on. */
  ghost predicate Listed(c: Codec, disk: Disk, used: set<Sector>, key: Key, hs: seq<Digest>, ls: seq<Sector>,
                         base: nat, n: nat, hashes: seq<Digest>, locs: seq<Sector>, leaves: Leaves)
  {
    && |hs| == |ls| && base + n <= |hs| && |hashes| == |locs| > 0
    && Resolve(c, disk, key, n, |hashes|, hashes, locs) == Some(leaves)
    && leaves.hashes == hs[base..base + n] && leaves.locs == ls[base..base + n]
    && Held(leaves.inuse, used)
  }

  /** The same for the first i children of a tree that needs index sectors. */
  ghost predicate ListedUpTo(c: Codec, disk: Disk, used: set<Sector>, key: Key, hs: seq<Digest>,
                             ls: seq<Sector>, base: nat, n: nat, hashes: seq<Digest>, locs: seq<Sector>,
                             i: nat, leaves: Leaves)
  {
    var hsize := |hashes|;
    && |hs| == |ls| && base + n <= |hs| && |hashes| == |locs| && 0 < hsize < n && i <= Count(n, hsize) <= hsize
    && Covered(n, hsize, i) <= n
    && ResolveUpTo(c, disk, key, n, hsize, hashes, locs, i) == Some(leaves)
    && leaves.hashes == hs[base..base + Covered(n, hsize, i)]
    && leaves.locs == ls[base..base + Covered(n, hsize, i)]
    && Held(leaves.inuse, used) && Held(locs[..i], used)
  }

  /** Writes elsewhere, and changes to entries and hashes beyond the part, keep the part listed. */
  lemma ListedUpToFrame(c: Codec, a: Snapshot, b: Snapshot, slot: nat, taken: set<Sector>, key: Key,
                        hs: seq<Digest>, ls: seq<Sector>, hs': seq<Digest>, ls': seq<Sector>,
                        base: nat, n: nat, hashes: seq<Digest>, locs: seq<Sector>,
                        hashes': seq<Digest>, locs': seq<Sector>, i: nat, leaves: Leaves)
    requires Step(a, b, slot, taken)
    requires ListedUpTo(c, a.disk, a.used[slot], key, hs, ls, base, n, hashes, locs, i, leaves)
    requires |hs'| == |ls'| == |hs| && |hashes'| == |locs'| == |hashes|
    requires var k := base + Covered(n, |hashes|, i); hs'[..k] == hs[..k] && ls'[..k] == ls[..k]
    requires hashes'[..i] == hashes[..i] && locs'[..i] == locs[..i]
    ensures ListedUpTo(c, b.disk, b.used[slot], key, hs', ls', base, n, hashes', locs', i, leaves)
  {
    hide Step, ResolveUpTo, Covered, Count, Held;
    var k := base + Covered(n, |hashes|, i);
    StepAgrees(a, b, slot, taken, leaves.inuse);
    StepAgrees(a, b, slot, taken, locs[..i]);
    ResolveUpToFrame(c, a.disk, b.disk, key, n, |hashes|, hashes, locs, i);
    forall j | 0 <= j < i ensures hashes[j] == hashes'[j] && locs[j] == locs'[j] {
      assert hashes'[..i][j] == hashes[..i][j];
      assert locs'[..i][j] == locs[..i][j];
    }
    ResolveUpToSame(c, b.disk, key, n, |hashes|, hashes, locs, hashes', locs', i);
    assert hs'[base..k] == hs'[..k][base..] && hs[base..k] == hs[..k][base..];
    assert ls'[base..k] == ls'[..k][base..] && ls[base..k] == ls[..k][base..];
  }

  lemma ListedMove(c: Codec, a: Disk, used: set<Sector>, b: Disk, used': set<Sector>, key: Key,
                   hs: seq<Digest>, ls: seq<Sector>, base: nat, n: nat, hashes: seq<Digest>,
                   locs: seq<Sector>, leaves: Leaves)
    requires Preserves(a, used, b, used')
    requires Listed(c, a, used, key, hs, ls, base, n, hashes, locs, leaves)
    ensures Listed(c, b, used', key, hs, ls, base, n, hashes, locs, leaves)
  {
    hide Resolve, Dynamic;
    ResolveFrame(c, a, b, key, n, |hashes|, hashes, locs);
  }

  lemma ListedFrame(c: Codec, a: Snapshot, b: Snapshot, slot: nat, taken: set<Sector>, key: Key,
                    hs: seq<Digest>, ls: seq<Sector>, base: nat, n: nat, hashes: seq<Digest>,
                    locs: seq<Sector>, leaves: Leaves)
    requires Step(a, b, slot, taken)
    requires Listed(c, a.disk, a.used[slot], key, hs, ls, base, n, hashes, locs, leaves)
    ensures Listed(c, b.disk, b.used[slot], key, hs, ls, base, n, hashes, locs, leaves)
  {
    hide Listed;
    StepPreserves(a, b, slot, taken);
    ListedMove(c, a.disk, a.used[slot], b.disk, b.used[slot], key, hs, ls, base, n, hashes, locs, leaves);
  }

  /** A further child: its list is complete and its index sector holds the list's top level. */
  lemma ListedNext(c: Codec, disk: Disk, used: set<Sector>, key: Key, hs: seq<Digest>, ls: seq<Sector>,
                   base: nat, n: nat, hashes: seq<Digest>, locs: seq<Sector>, i: nat, leaves: Leaves,
                   t: ItreeSector, below: Leaves)
    requires ListedUpTo(c, disk, used, key, hs, ls, base, n, hashes, locs, i, leaves)
    requires i < Count(n, |hashes|)
    requires var m := ChildSize(n, |hashes|, i);
      && base + Covered(n, |hashes|, i) + m <= |hs|
      && Listed(c, disk, used, key, hs, ls, base + Covered(n, |hashes|, i), m, t.hashes, t.locs, below)
    requires c.openItree(key, Read(disk, locs[i])) == Some(t) && hashes[i] == c.hashItree(t.hashes)
    requires Dynamic(locs[i]) && locs[i] in used
    ensures ListedUpTo(c, disk, used, key, hs, ls, base, n, hashes, locs, i + 1, Append(leaves, below))
  {
    hide Covered, Count, ChildSize, Resolve, ResolveUpTo, ResolveChild;
    Partition(n, |hashes|, i);
    ResolveBelow(c, disk, key, ChildSize(n, |hashes|, i), hashes[i], locs[i]);
    ResolveNext(c, disk, key, n, |hashes|, hashes, locs, i, leaves, below);
    var lo := base + Covered(n, |hashes|, i);
    var hi := lo + ChildSize(n, |hashes|, i);
    assert hs[base..hi] == hs[base..lo] + hs[lo..hi] && ls[base..hi] == ls[base..lo] + ls[lo..hi];
    assert locs[..i + 1] == locs[..i] + [locs[i]];
    CountBound(n, |hashes|);
    CoveredBound(n, |hashes|, i + 1);
    assert Held(leaves.inuse + below.inuse, used);
    assert Held(locs[..i + 1], used);
  }

  lemma CoveredBound(n: nat, hsize: nat, i: nat)
    requires hsize > 0
    ensures Covered(n, hsize, i) <= n
  {
  }

  lemma ListedDone(c: Codec, disk: Disk, used: set<Sector>, key: Key, hs: seq<Digest>, ls: seq<Sector>,
                   base: nat, n: nat, hashes: seq<Digest>, locs: seq<Sector>, leaves: Leaves)
    requires |hashes| > 0
    requires ListedUpTo(c, disk, used, key, hs, ls, base, n, hashes, locs, Count(n, |hashes|), leaves)
    ensures Listed(c, disk, used, key, hs, ls, base, n, hashes, locs,
                   leaves.(inuse := locs[..Count(n, |hashes|)] + leaves.inuse))
  {
    hide ResolveUpTo;
    CountBound(n, |hashes|);
  }

  /** A list that fits needs no index sectors. */
  lemma ListedLeaf(c: Codec, disk: Disk, used: set<Sector>, key: Key, hs: seq<Digest>, ls: seq<Sector>,
                   base: nat, n: nat, hashes: seq<Digest>, locs: seq<Sector>)
    requires |hs| == |ls| && base + n <= |hs| && n <= |hashes| == |locs| && |hashes| > 0
    requires hashes[..n] == hs[base..base + n] && locs[..n] == ls[base..base + n]
    requires Held(ls[base..base + n], used)
    ensures Listed(c, disk, used, key, hs, ls, base, n, hashes, locs,
                   Leaves(hs[base..base + n], ls[base..base + n], ls[base..base + n]))
  {
  }

  /* Pages. */

  /** Only the low half of the flags is stored. */
  function Masked(vtpms: seq<Vtpm>): (r: seq<Vtpm>)
    ensures |r| == |vtpms|
  {
    seq(|vtpms|, i requires 0 <= i < |vtpms| => vtpms[i].(flags := vtpms[i].flags % 0x1_0000))
  }

  ghost predicate PageOk(page: Page, base: nat) {
    && |page.vtpms| <= VTPMS_PER_SECTOR
    && forall j :: 0 <= j < |page.vtpms| ==> page.vtpms[j].index == base + j
  }

  /** The page's sector verifies against its hash and decrypts to its vTPMs. */
  ghost predicate PageKept(c: Codec, disk: Disk, used: set<Sector>, key: Key, groupKey: Key, page: Page, base: nat)
    requires Sized(c)
  {
    && PageOk(page, base)
    && Dynamic(page.loc) && page.loc in used
    && LoadPage(c, disk, key, Some(groupKey), page.hash, page.loc, |page.vtpms|, base)
       == Some(page.(vtpms := Masked(page.vtpms)))
  }

  /** Pages lo to hi are in order, and those that are not dirty are kept. */
  ghost predicate PagesReady(c: Codec, disk: Disk, used: set<Sector>, key: Key, groupKey: Key,
                             pages: seq<Page>, lo: nat, hi: nat)
    requires Sized(c) && lo <= hi <= |pages|
  {
    forall i :: lo <= i < hi ==>
      && PageOk(pages[i], VTPMS_PER_SECTOR * i)
      && (pages[i].loc != 0 ==> PageKept(c, disk, used, key, groupKey, pages[i], VTPMS_PER_SECTOR * i))
  }

  /** Pages lo to hi are all kept. */
  ghost predicate PagesKept(c: Codec, disk: Disk, used: set<Sector>, key: Key, groupKey: Key,
                            pages: seq<Page>, lo: nat, hi: nat)
    requires Sized(c) && lo <= hi <= |pages|
  {
    forall i :: lo <= i < hi ==> PageKept(c, disk, used, key, groupKey, pages[i], VTPMS_PER_SECTOR * i)
  }

  lemma PageKeptFrame(c: Codec, a: Snapshot, b: Snapshot, slot: nat, taken: set<Sector>, key: Key,
                      groupKey: Key, page: Page, base: nat)
    requires Sized(c) && Step(a, b, slot, taken)
    requires PageKept(c, a.disk, a.used[slot], key, groupKey, page, base)
    ensures PageKept(c, b.disk, b.used[slot], key, groupKey, page, base)
  {
    StepReads(a, b, slot, taken, page.loc);
  }

  lemma PagesReadyFrame(c: Codec, a: Snapshot, b: Snapshot, slot: nat, taken: set<Sector>, key: Key,
                        groupKey: Key, pages: seq<Page>, lo: nat, hi: nat)
    requires Sized(c) && Step(a, b, slot, taken) && lo <= hi <= |pages|
    requires PagesReady(c, a.disk, a.used[slot], key, groupKey, pages, lo, hi)
    ensures PagesReady(c, b.disk, b.used[slot], key, groupKey, pages, lo, hi)
  {
    hide PageKept;
    assert slot < 2 && |b.used| == 2;
    hide Step;
    forall i | lo <= i < hi && pages[i].loc != 0
      ensures PageKept(c, b.disk, b.used[slot], key, groupKey, pages[i], VTPMS_PER_SECTOR * i)
    {
      PageKeptFrame(c, a, b, slot, taken, key, groupKey, pages[i], VTPMS_PER_SECTOR * i);
    }
  }

  lemma PagesKeptMove(c: Codec, a: Disk, used: set<Sector>, b: Disk, used': set<Sector>, key: Key,
                      groupKey: Key, pages: seq<Page>, lo: nat, hi: nat)
    requires Sized(c) && Preserves(a, used, b, used') && lo <= hi <= |pages|
    requires PagesKept(c, a, used, key, groupKey, pages, lo, hi)
    ensures PagesKept(c, b, used', key, groupKey, pages, lo, hi)
  {
    hide PageOk, Decode, Dynamic;
    forall i | lo <= i < hi
      ensures PageKept(c, b, used', key, groupKey, pages[i], VTPMS_PER_SECTOR * i)
    {
      assert PageKept(c, a, used, key, groupKey, pages[i], VTPMS_PER_SECTOR * i);
    }
  }

  lemma PagesKeptFrame(c: Codec, a: Snapshot, b: Snapshot, slot: nat, taken: set<Sector>, key: Key,
                       groupKey: Key, pages: seq<Page>, lo: nat, hi: nat)
    requires Sized(c) && Step(a, b, slot, taken) && lo <= hi <= |pages|
    requires PagesKept(c, a.disk, a.used[slot], key, groupKey, pages, lo, hi)
    ensures PagesKept(c, b.disk, b.used[slot], key, groupKey, pages, lo, hi)
  {
    StepPreserves(a, b, slot, taken);
    PagesKeptMove(c, a.disk, a.used[slot], b.disk, b.used[slot], key, groupKey, pages, lo, hi);
  }

  function Hashes(pages: seq<Page>): (r: seq<Digest>)
    ensures |r| == |pages|
  {
    seq(|pages|, i requires 0 <= i < |pages| => pages[i].hash)
  }

  function Locs(pages: seq<Page>): (r: seq<Sector>)
    ensures |r| == |pages|
  {
    seq(|pages|, i requires 0 <= i < |pages| => pages[i].loc)
  }

  /** Writing a page changes nothing but where it is stored, and nothing at all if it was clean. */
  ghost predicate PagesWritten(pages: seq<Page>, pages': seq<Page>, lo: nat, hi: nat) {
    && lo <= hi <= |pages| == |pages'|
    && (forall i :: 0 <= i < |pages| ==> pages'[i].vtpms == pages[i].vtpms)
    && (forall i :: 0 <= i < |pages| && !(lo <= i < hi && pages[i].loc == 0) ==> pages'[i] == pages[i])
  }

  /** The headers and secrets of a page sector, zero beyond the page's vTPMs. */
  ghost predicate Encodes(headers: seq<VtpmHeader>, data: seq<Blob>, vtpms: seq<Vtpm>) {
    && |headers| == |data| == VTPMS_PER_SECTOR && |vtpms| <= VTPMS_PER_SECTOR
    && (forall i :: 0 <= i < |vtpms| ==>
          headers[i] == VtpmHeader(vtpms[i].uuid, vtpms[i].flags % 0x1_0000) && data[i] == vtpms[i].data)
  }

  /** A page sector: plain headers, and secrets wrapped under the group's key. */
  function EncodePage(c: Codec, groupKey: Key, iv: Blob, headers: seq<VtpmHeader>, data: seq<Blob>)
    : (r: PageSector)
    requires |headers| == VTPMS_PER_SECTOR
  {
    PageData(headers, c.wrap(groupKey, iv, data))
  }

  lemma EncodeDecode(c: Codec, groupKey: Key, iv: Blob, headers: seq<VtpmHeader>, data: seq<Blob>, page: Page,
                     base: nat)
    requires Faithful(c) && PageOk(page, base) && Encodes(headers, data, page.vtpms)
    ensures Decode(c, groupKey, EncodePage(c, groupKey, iv, headers, data), |page.vtpms|, base)
         == Masked(page.vtpms)
  {
  }

  /* Groups. */

  /** The pages hold the group's vTPMs in order, every page but the last one full. */
  ghost predicate Paged(g: Group) {
    && |g.pages| == PagesFor(g.nrVtpms)
    && forall k :: 0 <= k < |g.pages| ==>
      && VTPMS_PER_SECTOR * k <= g.nrVtpms
      && |g.pages[k].vtpms| == PageSize(g.nrVtpms, VTPMS_PER_SECTOR * k)
      && PageOk(g.pages[k], VTPMS_PER_SECTOR * k)
  }

  /** The sector describes the open group, and its list is the group's pages. */
  ghost predicate Matches(c: Codec, sector: GroupSector, leaves: Leaves, g: Group) {
    && sector.area == GroupArea(g.id, g.details, g.boot, g.nrVtpms, sector.area.hashes)
    && sector.mac == c.macGroup(g.keys.group, sector.area)
    && leaves.hashes == Hashes(g.pages) && leaves.locs == Locs(g.pages)
    && Paged(g) && g.sealValid
  }

  ghost predicate KeptAs(c: Codec, disk: Disk, used: set<Sector>, key: Key, hdr: GroupHdr, sector: GroupSector,
                         leaves: Leaves)
    requires Sized(c)
  {
    && Dynamic(hdr.loc) && hdr.loc in used
    && c.openGroup(key, Read(disk, hdr.loc)) == Some(sector)
    && c.hashGroup(sector.area, sector.mac) == hdr.hash
    && Resolve(c, disk, key, PagesFor(sector.area.nrVtpms), ENTRIES_PER_GROUP, sector.area.hashes, sector.locs)
       == Some(leaves)
    && multiset(hdr.inuse) == multiset(leaves.inuse) && Held(leaves.inuse, used)
    && (hdr.v.None? ==>
        LoadPages(c, disk, key, None, leaves, sector.area.nrVtpms, PagesFor(sector.area.nrVtpms)).Some?)
    && (hdr.v.Some? ==>
        && Matches(c, sector, leaves, hdr.v.value)
        && PagesKept(c, disk, used, key, hdr.v.value.keys.group, hdr.v.value.pages, 0, |hdr.v.value.pages|))
  }

  /** The group's sector verifies against its hash, its list holds exactly the sectors that the header
      records, and, for an open group, all of it agrees with memory. */
  ghost predicate GroupKept(c: Codec, disk: Disk, used: set<Sector>, key: Key, hdr: GroupHdr)
    requires Sized(c)
  {
    exists sector, leaves :: KeptAs(c, disk, used, key, hdr, sector, leaves)
  }

  /** The same page on disk; flags that are not stored may differ. */
  ghost predicate SameStored(p: Page, q: Page) {
    p.hash == q.hash && p.loc == q.loc && Masked(p.vtpms) == Masked(q.vtpms)
  }

  /** Memory may be ahead of the stored version of a group: vTPMs have been deleted since it was
      written, but each page that is not dirty is the stored one. */
  ghost predicate Behind(stored: Group, g: Group) {
    && stored.(pages := g.pages, nrVtpms := g.nrVtpms) == g
    && Paged(g) && g.nrVtpms <= stored.nrVtpms
    && forall k :: 0 <= k < |g.pages| && g.pages[k].loc != 0 ==>
      k < |stored.pages| && SameStored(g.pages[k], stored.pages[k])
  }

  ghost predicate KeptVersion(c: Codec, disk: Disk, used: set<Sector>, key: Key, hdr: GroupHdr, v: Option<Group>)
    requires Sized(c)
  {
    && GroupKept(c, disk, used, key, hdr.(v := v))
    && (hdr.v.Some? ==> v.Some? && Behind(v.value, hdr.v.value))
    && (hdr.v.None? ==> v.None?)
  }

  /** Some version of the group is kept. */
  ghost predicate HdrKept(c: Codec, disk: Disk, used: set<Sector>, key: Key, hdr: GroupHdr)
    requires Sized(c)
  {
    exists v :: KeptVersion(c, disk, used, key, hdr, v)
  }

  /** A group that is kept as it is in memory. */
  lemma KeptIsVersion(c: Codec, disk: Disk, used: set<Sector>, key: Key, hdr: GroupHdr)
    requires Sized(c) && GroupKept(c, disk, used, key, hdr)
    ensures KeptVersion(c, disk, used, key, hdr, hdr.v) && HdrKept(c, disk, used, key, hdr)
  {
    hide Resolve, LoadPages, PagesKept, Held, Paged;
    assert hdr.(v := hdr.v) == hdr;
    var sector, leaves :| KeptAs(c, disk, used, key, hdr, sector, leaves);
    assert KeptVersion(c, disk, used, key, hdr, hdr.v);
  }

  /** A stale group is open, its pages are in order and those that are not dirty are kept. */
  ghost predicate GroupStale(c: Codec, disk: Disk, used: set<Sector>, key: Key, hdr: GroupHdr)
    requires Sized(c)
  {
    hdr.v.Some? ==>
      && Paged(hdr.v.value)
      && PagesReady(c, disk, used, key, hdr.v.value.keys.group, hdr.v.value.pages, 0, |hdr.v.value.pages|)
  }

  ghost predicate GroupReady(c: Codec, disk: Disk, used: set<Sector>, key: Key, hdr: GroupHdr)
    requires Sized(c)
  {
    if hdr.loc != 0 then HdrKept(c, disk, used, key, hdr) else GroupStale(c, disk, used, key, hdr)
  }

  lemma GroupKeptMove(c: Codec, a: Disk, used: set<Sector>, b: Disk, used': set<Sector>, key: Key, hdr: GroupHdr)
    requires Sized(c) && Preserves(a, used, b, used') && GroupKept(c, a, used, key, hdr)
    ensures GroupKept(c, b, used', key, hdr)
  {
    hide LoadPages, Resolve, PagesKept, Matches, Paged, Dynamic;
    var sector, leaves :| KeptAs(c, a, used, key, hdr, sector, leaves);
    assert Agree(a, b, leaves.inuse) && Held(leaves.inuse, used');
    var n := PagesFor(sector.area.nrVtpms);
    ResolveFrame(c, a, b, key, n, ENTRIES_PER_GROUP, sector.area.hashes, sector.locs);
    LocsInUse(c, a, key, n, ENTRIES_PER_GROUP, sector.area.hashes, sector.locs);
    PagesFrame(c, a, b, key, None, leaves, sector.area.nrVtpms, n);
    if hdr.v.Some? {
      var g := hdr.v.value;
      PagesKeptMove(c, a, used, b, used', key, g.keys.group, g.pages, 0, |g.pages|);
    }
    assert KeptAs(c, b, used', key, hdr, sector, leaves);
  }

  lemma HdrKeptMove(c: Codec, a: Disk, used: set<Sector>, b: Disk, used': set<Sector>, key: Key, hdr: GroupHdr)
    requires Sized(c) && Preserves(a, used, b, used') && HdrKept(c, a, used, key, hdr)
    ensures HdrKept(c, b, used', key, hdr)
  {
    hide GroupKept, Behind;
    var v :| KeptVersion(c, a, used, key, hdr, v);
    GroupKeptMove(c, a, used, b, used', key, hdr.(v := v));
    assert KeptVersion(c, b, used', key, hdr, v);
  }

  lemma GroupReadyFrame(c: Codec, a: Snapshot, b: Snapshot, slot: nat, taken: set<Sector>, key: Key, hdr: GroupHdr)
    requires Sized(c) && Step(a, b, slot, taken) && GroupReady(c, a.disk, a.used[slot], key, hdr)
    ensures GroupReady(c, b.disk, b.used[slot], key, hdr)
  {
    StepPreserves(a, b, slot, taken);
    hide Step, HdrKept, PagesReady, Paged;
    if hdr.loc != 0 {
      HdrKeptMove(c, a.disk, a.used[slot], b.disk, b.used[slot], key, hdr);
    } else if hdr.v.Some? {
      var g := hdr.v.value;
      PagesReadyFrame(c, a, b, slot, taken, key, g.keys.group, g.pages, 0, |g.pages|);
    }
  }

  /** Writing a group changes only where it and its pages are stored, and the seals if they were not
      valid; a clean group does not change at all. */
  /** The boot configurations have been sealed anew, from the group's keys. */
  ghost predicate SealedFor(c: Codec, g: Group, boot: Blob) {
    exists random :: boot == c.sealBoot(g.keys, g.nrSeals, random)
  }

  ghost predicate GroupWritten(c: Codec, hdr: GroupHdr, hdr': GroupHdr) {
    && (hdr.loc != 0 ==> hdr' == hdr)
    && (hdr.loc == 0 ==>
        && hdr.v.Some? && hdr'.v.Some?
        && var g, g' := hdr.v.value, hdr'.v.value;
           && g'.(pages := g.pages, boot := g.boot, sealValid := g.sealValid) == g
           && g'.sealValid
           && (if g.sealValid then g'.boot == g.boot else SealedFor(c, g, g'.boot))
           && PagesWritten(g.pages, g'.pages, 0, |g.pages|))
  }
}
