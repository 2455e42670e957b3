/**
 Writing the store: changed pages, index trees, groups and the root, into free sectors only.
 */
module DiskWrite {
  import opened Wrappers
  import opened Bytes
  import opened DiskFormat
  import opened IndexTree
  import opened DiskLoad
  import opened DiskIo
  import opened Stored

  class Writer {
    const c: Codec
    const dev: Device
    const key: Key
    const slot: nat

    ghost predicate Valid()
      reads this, dev, dev.inuse
    {
      Faithful(c) && Sized(c) && slot < 2 && dev.Valid() && |dev.used| == 2
    }

    /** The caller's two arrays and the allocation table do not overlap. */
    ghost predicate Apart(hash: array<Digest>, loc: array<Sector>)
      reads this
    {
      hash as object != loc as object && hash as object != dev.inuse as object && loc as object != dev.inuse as object
    }

    constructor (c: Codec, dev: Device, key: Key, slot: nat)
      requires Faithful(c) && Sized(c) && slot < 2 && dev.Valid()
      ensures Valid() && this.c == c && this.dev == dev && this.key == key && this.slot == slot
    {
      this.c, this.dev, this.key, this.slot := c, dev, key, slot;
    }

    /** disk_write_vtpm_page: nothing to do if the copy on disk is valid. */
    method WritePage(page: Page, groupKey: Key, ghost base: nat)
      returns (ok: bool, page': Page, ghost taken: set<Sector>)
      requires Valid() && PageOk(page, base)
      requires page.loc != 0 ==> PageKept(c, dev.disk, dev.used[slot], key, groupKey, page, base)
      modifies dev, dev.inuse
      ensures Valid() && Step(old(Now(dev)), Now(dev), slot, taken)
      ensures page'.vtpms == page.vtpms
      ensures page.loc != 0 ==> ok && page' == page && taken == {}
      ensures ok && page.loc == 0 ==> taken == {page'.loc}
      ensures ok ==> PageKept(c, dev.disk, dev.used[slot], key, groupKey, page', base)
      ensures !ok ==> Full(Now(dev))
    {
      hide Faithful, Step, Dynamic;
      ghost var before := Now(dev);
      StepNone(before, slot);
      if page.loc != 0 {
        return true, page, {};
      }
      var headers, data := BlankHeaders(), BlankData();
      for i := 0 to |page.vtpms|
        invariant |headers| == |data| == VTPMS_PER_SECTOR
        invariant forall j :: 0 <= j < i ==>
          headers[j] == VtpmHeader(page.vtpms[j].uuid, page.vtpms[j].flags % 0x1_0000)
          && data[j] == page.vtpms[j].data
      {
        headers := headers[i := VtpmHeader(page.vtpms[i].uuid, page.vtpms[i].flags % 0x1_0000)];
        data := data[i := page.vtpms[i].data];
      }
      var iv: Blob := *;
      var sector := EncodePage(c, groupKey, iv, headers, data);
      EncodeDecode(c, groupKey, iv, headers, data, page, base);
      var hash := c.hashPage(sector);
      var sectorIv: Blob := *;
      var blob := c.sealPage(key, sectorIv, sector);
      assert c.openPage(key, blob) == Some(sector) by { PageOpens(c, key, sectorIv, sector); }
      var loc;
      ok, loc := dev.WriteFree(slot, blob);
      page', taken := page.(hash := hash, loc := loc), {};
      if ok {
        StepOne(before, Now(dev), slot, loc, blob);
        taken := {loc};
      }
    }

    /** The leaf case of disk_write_vtpm_itree: n pages whose hashes and locations fit. */
    method WriteLeaf(pages: seq<Page>, base: nat, n: nat, hash: array<Digest>, loc: array<Sector>, groupKey: Key)
      returns (ok: bool, pages': seq<Page>, ghost taken: set<Sector>)
      requires Valid() && base + n <= |pages| && n <= hash.Length == loc.Length && Apart(hash, loc)
      requires PagesReady(c, dev.disk, dev.used[slot], key, groupKey, pages, base, base + n)
      modifies dev, dev.inuse, hash, loc
      ensures Valid() && Step(old(Now(dev)), Now(dev), slot, taken)
      ensures |pages'| == |pages| && PagesWritten(pages, pages', base, base + n)
      ensures !ok ==> Full(Now(dev))
      ensures ok ==>
        && PagesKept(c, dev.disk, dev.used[slot], key, groupKey, pages', base, base + n)
        && hash[..n] == Hashes(pages')[base..base + n] && loc[..n] == Locs(pages')[base..base + n]
        && (forall s :: s in taken ==> s in Locs(pages')[base..base + n])
    {
      hide Faithful, Step, LeafState, PagesReady, PagesKept, PagesWritten, PageKept, PageOk, Full;
      pages', taken := pages, {};
      ghost var start := Now(dev);
      StepNone(start, slot);
      LeafStart(c, start, slot, key, groupKey, pages, base, n);
      for i := 0 to n
        invariant Valid() && Step(start, Now(dev), slot, taken)
        invariant LeafState(c, Now(dev), slot, key, groupKey, pages, pages', base, i, n, taken)
        invariant |pages'| == |pages|
        invariant forall j :: 0 <= j < i ==> hash[j] == pages'[base + j].hash && loc[j] == pages'[base + j].loc
      {
        ghost var before := Now(dev);
        LeafNext(c, before, slot, key, groupKey, pages, pages', base, i, n, taken);
        var page; ghost var t;
        ok, page, t := WritePage(pages'[base + i], groupKey, VTPMS_PER_SECTOR * (base + i));
        StepTrans(start, before, Now(dev), slot, taken, t);
        if !ok {
          LeafEnd(c, before, slot, key, groupKey, pages, pages', base, i, n, taken);
          taken := taken + t;
          return;
        }
        LeafStep(c, before, Now(dev), slot, key, groupKey, pages, pages', page, base, i, n, taken, t);
        pages' := pages'[base + i := page];
        taken := taken + t;
        loc[i] := page.loc;
        hash[i] := page.hash;
      }
      ok := true;
      LeafEnd(c, Now(dev), slot, key, groupKey, pages, pages', base, n, n, taken);
      LeafEntries(hash[..], loc[..], pages', base, n);
      assert hash[..n] == hash[..][..n] && loc[..n] == loc[..][..n];
    }

    /** disk_write_vtpm_itree: n pages from base on, and the tree above them.  `inuse` grows by every
        sector of the list. */
    method WriteVtpmItree(pages: seq<Page>, base: nat, n: nat, hash: array<Digest>, loc: array<Sector>,
                          groupKey: Key, inuse: seq<Sector>)
      returns (ok: bool, pages': seq<Page>, inuse': seq<Sector>, ghost taken: set<Sector>, ghost leaves: Leaves)
      requires Valid() && base + n <= |pages| && 0 < hash.Length == loc.Length && Apart(hash, loc)
      requires PagesReady(c, dev.disk, dev.used[slot], key, groupKey, pages, base, base + n)
      modifies dev, dev.inuse, hash, loc
      ensures Valid() && Step(old(Now(dev)), Now(dev), slot, taken)
      ensures |pages'| == |pages| && PagesWritten(pages, pages', base, base + n)
      ensures !ok ==> Full(Now(dev))
      ensures ok ==>
        && PagesKept(c, dev.disk, dev.used[slot], key, groupKey, pages', base, base + n)
        && Listed(c, dev.disk, dev.used[slot], key, Hashes(pages'), Locs(pages'), base, n, hash[..], loc[..], leaves)
        && multiset(inuse') == multiset(inuse) + multiset(leaves.inuse)
        && (forall s :: s in taken ==> s in leaves.inuse)
      decreases n, Rank(hash.Length)
    {
      hide Faithful, Step, PagesReady, PagesKept, PagesWritten, Listed, Full;
      var hsize := hash.Length;
      inuse', leaves := inuse, Leaves([], [], []);
      if n <= hsize {
        ok, pages', taken := WriteLeaf(pages, base, n, hash, loc, groupKey);
        if ok {
          inuse' := inuse + loc[..n];
          leaves := Leaves(hash[..n], loc[..n], loc[..n]);
          LeafListed(c, dev.disk, dev.used[slot], key, groupKey, pages', base, n, hash[..], loc[..]);
        }
        return;
      }
      ok, pages', inuse', taken, leaves := WriteChildren(pages, base, n, hash, loc, groupKey, inuse);
      if ok {
        ghost var count := Count(n, hsize);
        ListedDone(c, dev.disk, dev.used[slot], key, Hashes(pages'), Locs(pages'), base, n, hash[..], loc[..], leaves);
        var lsize := 1 + (n - 1) / Incr(n, hsize);
        LevelSize(n, hsize);
        leaves := leaves.(inuse := loc[..count] + leaves.inuse);
        inuse' := inuse' + loc[..lsize];
      }
    }

    /** One index sector: its hash and location go to entry i of the level above. */
    method WriteNode(childHash: array<Digest>, childLoc: array<Sector>, hash: array<Digest>, loc: array<Sector>, i: nat)
      returns (ok: bool, ghost node: ItreeSector, ghost s: Sector)
      requires Valid() && childHash.Length == childLoc.Length == ENTRIES_PER_ITREE
      requires i < hash.Length == loc.Length && Apart(hash, loc)
      modifies dev, dev.inuse, hash, loc
      ensures Valid()
      ensures !ok ==> Now(dev) == old(Now(dev)) && Full(Now(dev))
      ensures ok ==>
        && Step(old(Now(dev)), Now(dev), slot, {s})
        && node == ItreeData(old(childLoc[..]), old(childHash[..]))
        && hash[..] == old(hash[..])[i := c.hashItree(node.hashes)] && loc[..] == old(loc[..])[i := s]
        && c.openItree(key, Read(dev.disk, s)) == Some(node) && Dynamic(s) && s in dev.used[slot]
    {
      hide Faithful, Step, Dynamic;
      ghost var before := Now(dev);
      var iv: Blob := *;
      var sector := Node(childLoc[..], childHash[..]);
      var blob := SealNode(c, key, iv, sector);
      node := sector;
      hash[i] := c.hashItree(sector.hashes);
      var at;
      ok, at := dev.WriteFree(slot, blob);
      s := at;
      if ok {
        loc[i] := at;
        StepOne(before, Now(dev), slot, at, blob);
      }
    }

    /** The loop of disk_write_vtpm_itree over the index sectors of one level. */
    method WriteChildren(pages: seq<Page>, base: nat, n: nat, hash: array<Digest>, loc: array<Sector>,
                         groupKey: Key, inuse: seq<Sector>)
      returns (ok: bool, pages': seq<Page>, inuse': seq<Sector>, ghost taken: set<Sector>, ghost leaves: Leaves)
      requires Valid() && base + n <= |pages| && 0 < hash.Length == loc.Length < n && Apart(hash, loc)
      requires PagesReady(c, dev.disk, dev.used[slot], key, groupKey, pages, base, base + n)
      modifies dev, dev.inuse, hash, loc
      ensures Valid() && Step(old(Now(dev)), Now(dev), slot, taken)
      ensures |pages'| == |pages| && PagesWritten(pages, pages', base, base + n)
      ensures !ok ==> Full(Now(dev))
      ensures ok ==>
        && PagesKept(c, dev.disk, dev.used[slot], key, groupKey, pages', base, base + n)
        && ListedUpTo(c, dev.disk, dev.used[slot], key, Hashes(pages'), Locs(pages'), base, n, hash[..], loc[..],
                      Count(n, hash.Length), leaves)
        && multiset(inuse') == multiset(inuse) + multiset(leaves.inuse)
        && (forall s :: s in taken ==> s in leaves.inuse || s in loc[..Count(n, hash.Length)])
      decreases n, Rank(hash.Length), 0
    {
      hide Faithful, Step, TreeState, PagesReady, PagesKept, PagesWritten, Listed, ListedUpTo, Count, Covered,
           ChildSize, Device.Valid, Full, Hashes, Locs, Append;
      var hsize := hash.Length;
      pages', inuse', taken, leaves := pages, inuse, {}, Leaves([], [], []);
      ghost var start := Now(dev);
      StepNone(start, slot);
      CountBound(n, hsize);
      TreeStart(c, start, slot, key, groupKey, pages, base, n, hash[..], loc[..], inuse);
      var count := Count(n, hsize);
      for i := 0 to count
        invariant Valid() && Step(start, Now(dev), slot, taken) && |pages'| == |pages|
        invariant TreeState(c, Now(dev), slot, key, groupKey, pages, pages', base, n, hash[..], loc[..], i, leaves,
                            inuse, inuse', taken)
      {
        ghost var a, was, hashes, locs := Now(dev), pages', hash[..], loc[..];
        Partition(n, hsize, i);
        ChildIsSmaller(n, hsize, i);
        TreeNext(c, a, slot, key, groupKey, pages, was, base, n, hashes, locs, i, leaves, inuse, inuse', taken);
        ghost var inuseA := inuse';
        var childHash, childLoc := new Digest[ENTRIES_PER_ITREE], new Sector[ENTRIES_PER_ITREE];
        ghost var t1, below;
        ok, pages', inuse', t1, below := WriteVtpmItree(pages', base + Covered(n, hsize, i), ChildSize(n, hsize, i),
                                                        childHash, childLoc, groupKey, inuse');
        ghost var b := Now(dev);
        StepTrans(start, a, b, slot, taken, t1);
        if !ok {
          TreeFails(c, a, slot, key, groupKey, pages, was, pages', base, n, hashes, locs, i, leaves, inuse, inuseA,
                    taken);
          taken := taken + t1;
          return;
        }
        ghost var node, s;
        ok, node, s := WriteNode(childHash, childLoc, hash, loc, i);
        if !ok {
          TreeFails(c, a, slot, key, groupKey, pages, was, pages', base, n, hashes, locs, i, leaves, inuse, inuseA,
                    taken);
          taken := taken + t1;
          return;
        }
        StepTrans(start, b, Now(dev), slot, taken + t1, {s});
        TreeStep(c, a, b, Now(dev), slot, key, groupKey, pages, was, pages', base, n, hashes, locs, i, leaves,
                 inuse, inuseA, inuse', taken, t1, node, below, s);
        taken := taken + t1 + {s};
        leaves := Append(leaves, below);
      }
      ok := true;
      TreeEnd(c, Now(dev), slot, key, groupKey, pages, pages', base, n, hash[..], loc[..], leaves, inuse, inuse',
              taken);
    }
  }

  function Node(locs: seq<Sector>, hashes: seq<Digest>): (r: ItreeSector)
    requires |locs| == |hashes| == ENTRIES_PER_ITREE
  {
    ItreeData(locs, hashes)
  }

  function SealNode(c: Codec, key: Key, iv: Blob, node: ItreeSector): (r: Blob)
    ensures Faithful(c) ==> c.openItree(key, r) == Some(node)
  {
    c.sealItree(key, iv, node)
  }

  /** The first i children of a level have been written. */
  ghost predicate TreeState(c: Codec, now: Snapshot, slot: nat, key: Key, groupKey: Key, pages: seq<Page>,
                            pages': seq<Page>, base: nat, n: nat, hashes: seq<Digest>, locs: seq<Sector>, i: nat,
                            leaves: Leaves, inuse: seq<Sector>, inuse': seq<Sector>, taken: set<Sector>)
    requires Sized(c)
  {
    && slot < |now.used| && base + n <= |pages| == |pages'| && |hashes| > 0
    && PagesWritten(pages, pages', base, base + n)
    && ListedUpTo(c, now.disk, now.used[slot], key, Hashes(pages'), Locs(pages'), base, n, hashes, locs, i, leaves)
    && (var done := base + Covered(n, |hashes|, i);
        && PagesKept(c, now.disk, now.used[slot], key, groupKey, pages', base, done)
        && PagesReady(c, now.disk, now.used[slot], key, groupKey, pages', done, base + n))
    && multiset(inuse') == multiset(inuse) + multiset(leaves.inuse)
    && (forall s :: s in taken ==> s in leaves.inuse || s in locs[..i])
  }

  lemma TreeStart(c: Codec, now: Snapshot, slot: nat, key: Key, groupKey: Key, pages: seq<Page>, base: nat,
                  n: nat, hashes: seq<Digest>, locs: seq<Sector>, inuse: seq<Sector>)
    requires Sized(c) && slot < |now.used| && base + n <= |pages| && 0 < |hashes| == |locs| < n
    requires PagesReady(c, now.disk, now.used[slot], key, groupKey, pages, base, base + n)
    ensures TreeState(c, now, slot, key, groupKey, pages, pages, base, n, hashes, locs, 0, Leaves([], [], []),
                      inuse, inuse, {})
  {
    hide PageKept, PageOk, Count;
    CountBound(n, |hashes|);
  }

  lemma TreeNext(c: Codec, now: Snapshot, slot: nat, key: Key, groupKey: Key, pages: seq<Page>,
                 pages': seq<Page>, base: nat, n: nat, hashes: seq<Digest>, locs: seq<Sector>, i: nat,
                 leaves: Leaves, inuse: seq<Sector>, inuse': seq<Sector>, taken: set<Sector>)
    requires Sized(c) && |hashes| > 0 && i < Count(n, |hashes|)
    requires TreeState(c, now, slot, key, groupKey, pages, pages', base, n, hashes, locs, i, leaves, inuse, inuse',
                       taken)
    ensures var lo, m := base + Covered(n, |hashes|, i), ChildSize(n, |hashes|, i);
      lo + m <= base + n <= |pages'| && PagesReady(c, now.disk, now.used[slot], key, groupKey, pages', lo, lo + m)
  {
    hide PageKept, PageOk, ListedUpTo, Count, Covered, ChildSize;
    Partition(n, |hashes|, i);
    CoveredBound(n, |hashes|, i + 1);
  }

  lemma TreeFails(c: Codec, now: Snapshot, slot: nat, key: Key, groupKey: Key, pages: seq<Page>,
                  was: seq<Page>, pages': seq<Page>, base: nat, n: nat, hashes: seq<Digest>, locs: seq<Sector>,
                  i: nat, leaves: Leaves, inuse: seq<Sector>, inuse': seq<Sector>, taken: set<Sector>)
    requires Sized(c) && |hashes| > 0 && i < Count(n, |hashes|)
    requires TreeState(c, now, slot, key, groupKey, pages, was, base, n, hashes, locs, i, leaves, inuse, inuse', taken)
    requires var lo, m := base + Covered(n, |hashes|, i), ChildSize(n, |hashes|, i);
      PagesWritten(was, pages', lo, lo + m)
    ensures PagesWritten(pages, pages', base, base + n)
  {
    hide PagesKept, PagesReady, ListedUpTo, Count, Covered, ChildSize;
    Partition(n, |hashes|, i);
    CoveredBound(n, |hashes|, i + 1);
  }

  /** A further child: written first the list below it, then its index sector at s. */
  lemma TreeStep(c: Codec, a: Snapshot, b: Snapshot, d: Snapshot, slot: nat, key: Key, groupKey: Key,
                 pages: seq<Page>, was: seq<Page>, pages': seq<Page>, base: nat, n: nat, hashes: seq<Digest>,
                 locs: seq<Sector>, i: nat, leaves: Leaves, inuse: seq<Sector>, inuseA: seq<Sector>,
                 inuseB: seq<Sector>, taken: set<Sector>, t1: set<Sector>, node: ItreeSector, below: Leaves, s: Sector)
    requires Sized(c) && |hashes| == |locs| > 0 && i < Count(n, |hashes|) <= |hashes|
    requires TreeState(c, a, slot, key, groupKey, pages, was, base, n, hashes, locs, i, leaves, inuse, inuseA, taken)
    requires Step(a, b, slot, t1) && Step(b, d, slot, {s})
    requires var lo, m := base + Covered(n, |hashes|, i), ChildSize(n, |hashes|, i);
      && lo + m <= |pages'| && PagesWritten(was, pages', lo, lo + m)
      && PagesKept(c, b.disk, b.used[slot], key, groupKey, pages', lo, lo + m)
      && Listed(c, b.disk, b.used[slot], key, Hashes(pages'), Locs(pages'), lo, m, node.hashes, node.locs, below)
    requires multiset(inuseB) == multiset(inuseA) + multiset(below.inuse)
    requires forall x :: x in t1 ==> x in below.inuse
    requires c.openItree(key, Read(d.disk, s)) == Some(node) && Dynamic(s) && s in d.used[slot]
    ensures TreeState(c, d, slot, key, groupKey, pages, pages', base, n, hashes[i := c.hashItree(node.hashes)],
                      locs[i := s], i + 1, Append(leaves, below), inuse, inuseB, taken + t1 + {s})
  {
    hide PageKept, PageOk, Count, Covered, ChildSize, Listed, ListedUpTo, PagesKept, PagesReady;
    TreeStepPages(c, a, b, d, slot, key, groupKey, pages, was, pages', base, n, hashes, locs, i, leaves, inuse,
                  inuseA, taken, t1, s);
    TreeStepList(c, a, b, d, slot, key, groupKey, pages, was, pages', base, n, hashes, locs, i, leaves, inuse,
                 inuseA, taken, t1, node, below, s);
    hide Step;
    var locs' := locs[i := s];
    assert locs'[..i + 1] == locs[..i] + [s];
  }

  lemma TreeStepPages(c: Codec, a: Snapshot, b: Snapshot, d: Snapshot, slot: nat, key: Key, groupKey: Key,
                      pages: seq<Page>, was: seq<Page>, pages': seq<Page>, base: nat, n: nat, hashes: seq<Digest>,
                      locs: seq<Sector>, i: nat, leaves: Leaves, inuse: seq<Sector>, inuseA: seq<Sector>,
                      taken: set<Sector>, t1: set<Sector>, s: Sector)
    requires Sized(c) && |hashes| == |locs| > 0 && i < Count(n, |hashes|) <= |hashes|
    requires TreeState(c, a, slot, key, groupKey, pages, was, base, n, hashes, locs, i, leaves, inuse, inuseA, taken)
    requires Step(a, b, slot, t1) && Step(b, d, slot, {s})
    requires var lo, m := base + Covered(n, |hashes|, i), ChildSize(n, |hashes|, i);
      && lo + m <= |pages'| && PagesWritten(was, pages', lo, lo + m)
      && PagesKept(c, b.disk, b.used[slot], key, groupKey, pages', lo, lo + m)
    ensures slot < |d.used| && base + n <= |pages| == |pages'| && PagesWritten(pages, pages', base, base + n)
    ensures var done := base + Covered(n, |hashes|, i + 1);
      && done <= base + n
      && PagesKept(c, d.disk, d.used[slot], key, groupKey, pages', base, done)
      && PagesReady(c, d.disk, d.used[slot], key, groupKey, pages', done, base + n)
  {
    assert slot < |d.used|;
    StepTrans(a, b, d, slot, t1, {s});
    hide Step, PageKept, PageOk, Count, Covered, ChildSize, ListedUpTo;
    Partition(n, |hashes|, i);
    CoveredBound(n, |hashes|, i + 1);
    var lo, m := base + Covered(n, |hashes|, i), ChildSize(n, |hashes|, i);
    PagesKeptFrame(c, a, d, slot, t1 + {s}, key, groupKey, was, base, lo);
    PagesKeptFrame(c, b, d, slot, {s}, key, groupKey, pages', lo, lo + m);
    PagesReadyFrame(c, a, d, slot, t1 + {s}, key, groupKey, was, lo, base + n);
  }

  lemma TreeStepList(c: Codec, a: Snapshot, b: Snapshot, d: Snapshot, slot: nat, key: Key, groupKey: Key,
                     pages: seq<Page>, was: seq<Page>, pages': seq<Page>, base: nat, n: nat, hashes: seq<Digest>,
                     locs: seq<Sector>, i: nat, leaves: Leaves, inuse: seq<Sector>, inuseA: seq<Sector>,
                     taken: set<Sector>, t1: set<Sector>, node: ItreeSector, below: Leaves, s: Sector)
    requires Sized(c) && |hashes| == |locs| > 0 && i < Count(n, |hashes|) <= |hashes|
    requires TreeState(c, a, slot, key, groupKey, pages, was, base, n, hashes, locs, i, leaves, inuse, inuseA, taken)
    requires Step(a, b, slot, t1) && Step(b, d, slot, {s})
    requires var lo, m := base + Covered(n, |hashes|, i), ChildSize(n, |hashes|, i);
      && lo + m <= |pages'| && PagesWritten(was, pages', lo, lo + m)
      && Listed(c, b.disk, b.used[slot], key, Hashes(pages'), Locs(pages'), lo, m, node.hashes, node.locs, below)
    requires c.openItree(key, Read(d.disk, s)) == Some(node) && Dynamic(s) && s in d.used[slot]
    ensures ListedUpTo(c, d.disk, d.used[slot], key, Hashes(pages'), Locs(pages'), base, n,
                       hashes[i := c.hashItree(node.hashes)], locs[i := s], i + 1, Append(leaves, below))
  {
    assert slot < |d.used|;
    StepTrans(a, b, d, slot, t1, {s});
    hide Step, Count, Covered, ChildSize, Listed, ListedUpTo, PagesKept, PagesReady;
    var lo, m := base + Covered(n, |hashes|, i), ChildSize(n, |hashes|, i);
    var hashes', locs' := hashes[i := c.hashItree(node.hashes)], locs[i := s];
    SameEntries(was, pages', lo, m);
    hide PagesWritten, TreeState, Hashes, Locs;
    ListedUpToFrame(c, a, d, slot, t1 + {s}, key, Hashes(was), Locs(was), Hashes(pages'), Locs(pages'),
                    base, n, hashes, locs, hashes', locs', i, leaves);
    ListedFrame(c, b, d, slot, {s}, key, Hashes(pages'), Locs(pages'), lo, m, node.hashes, node.locs, below);
    ListedNext(c, d.disk, d.used[slot], key, Hashes(pages'), Locs(pages'), base, n, hashes', locs', i, leaves, node,
               below);
  }

  lemma SameEntries(was: seq<Page>, pages: seq<Page>, lo: nat, m: nat)
    requires lo + m <= |pages| && PagesWritten(was, pages, lo, lo + m)
    ensures |was| == |pages| && Hashes(pages)[..lo] == Hashes(was)[..lo] && Locs(pages)[..lo] == Locs(was)[..lo]
  {
  }

  lemma TreeEnd(c: Codec, now: Snapshot, slot: nat, key: Key, groupKey: Key, pages: seq<Page>,
                pages': seq<Page>, base: nat, n: nat, hashes: seq<Digest>, locs: seq<Sector>,
                leaves: Leaves, inuse: seq<Sector>, inuse': seq<Sector>, taken: set<Sector>)
    requires Sized(c) && |hashes| > 0
    requires TreeState(c, now, slot, key, groupKey, pages, pages', base, n, hashes, locs, Count(n, |hashes|), leaves,
                       inuse, inuse', taken)
    ensures |pages'| == |pages| && base + n <= |pages| && PagesWritten(pages, pages', base, base + n)
    ensures PagesKept(c, now.disk, now.used[slot], key, groupKey, pages', base, base + n)
    ensures ListedUpTo(c, now.disk, now.used[slot], key, Hashes(pages'), Locs(pages'), base, n, hashes, locs,
                       Count(n, |hashes|), leaves)
    ensures multiset(inuse') == multiset(inuse) + multiset(leaves.inuse)
    ensures Count(n, |hashes|) <= |locs|
    ensures forall s :: s in taken ==> s in leaves.inuse || s in locs[..Count(n, |hashes|)]
  {
    hide PageKept, PageOk, ResolveUpTo, Count, Covered;
    CountBound(n, |hashes|);
  }

  /** The first i of n pages have been written. */
  ghost predicate LeafState(c: Codec, now: Snapshot, slot: nat, key: Key, groupKey: Key, pages: seq<Page>,
                            pages': seq<Page>, base: nat, i: nat, n: nat, taken: set<Sector>)
    requires Sized(c)
  {
    && slot < |now.used| && i <= n && base + n <= |pages|
    && PagesWritten(pages, pages', base, base + i)
    && PagesKept(c, now.disk, now.used[slot], key, groupKey, pages', base, base + i)
    && PagesReady(c, now.disk, now.used[slot], key, groupKey, pages', base + i, base + n)
    && (forall s :: s in taken ==> exists j :: base <= j < base + i && pages'[j].loc == s)
  }

  lemma LeafStart(c: Codec, now: Snapshot, slot: nat, key: Key, groupKey: Key, pages: seq<Page>, base: nat, n: nat)
    requires Sized(c) && slot < |now.used| && base + n <= |pages|
    requires PagesReady(c, now.disk, now.used[slot], key, groupKey, pages, base, base + n)
    ensures LeafState(c, now, slot, key, groupKey, pages, pages, base, 0, n, {})
  {
  }

  lemma LeafNext(c: Codec, now: Snapshot, slot: nat, key: Key, groupKey: Key, pages: seq<Page>,
                 pages': seq<Page>, base: nat, i: nat, n: nat, taken: set<Sector>)
    requires Sized(c) && LeafState(c, now, slot, key, groupKey, pages, pages', base, i, n, taken) && i < n
    ensures |pages'| == |pages| && base + i < |pages|
    ensures var page, at := pages'[base + i], VTPMS_PER_SECTOR * (base + i);
      && PageOk(page, at)
      && (page.loc != 0 ==> PageKept(c, now.disk, now.used[slot], key, groupKey, page, at))
  {
    hide PageKept, PageOk;
  }

  lemma LeafStep(c: Codec, a: Snapshot, b: Snapshot, slot: nat, key: Key, groupKey: Key, pages: seq<Page>,
                 was: seq<Page>, page: Page, base: nat, i: nat, n: nat, taken: set<Sector>, t: set<Sector>)
    requires Sized(c) && Step(a, b, slot, t)
    requires LeafState(c, a, slot, key, groupKey, pages, was, base, i, n, taken) && i < n && |was| == |pages|
    requires page.vtpms == was[base + i].vtpms
    requires was[base + i].loc != 0 ==> page == was[base + i] && t == {}
    requires was[base + i].loc == 0 ==> t == {page.loc}
    requires PageKept(c, b.disk, b.used[slot], key, groupKey, page, VTPMS_PER_SECTOR * (base + i))
    ensures LeafState(c, b, slot, key, groupKey, pages, was[base + i := page], base, i + 1, n, taken + t)
  {
    assert slot < |b.used|;
    hide Step, PageKept, PageOk;
    PagesKeptFrame(c, a, b, slot, t, key, groupKey, was, base, base + i);
    PagesReadyFrame(c, a, b, slot, t, key, groupKey, was, base + i + 1, base + n) by {
      assert PagesReady(c, a.disk, a.used[slot], key, groupKey, was, base + i, base + n);
    }
    var pages' := was[base + i := page];
    forall s | s in taken + t ensures exists j :: base <= j < base + i + 1 && pages'[j].loc == s {
      if s in t {
        assert pages'[base + i].loc == s;
      } else {
        var j :| base <= j < base + i && was[j].loc == s;
        assert pages'[j].loc == s;
      }
    }
  }

  lemma LeafEnd(c: Codec, now: Snapshot, slot: nat, key: Key, groupKey: Key, pages: seq<Page>,
                pages': seq<Page>, base: nat, i: nat, n: nat, taken: set<Sector>)
    requires Sized(c) && LeafState(c, now, slot, key, groupKey, pages, pages', base, i, n, taken)
    ensures PagesWritten(pages, pages', base, base + n)
    ensures i == n ==>
      && PagesKept(c, now.disk, now.used[slot], key, groupKey, pages', base, base + n)
      && (forall s :: s in taken ==> s in Locs(pages')[base..base + n])
  {
    hide PageKept, PageOk;
    if i == n {
      forall s | s in taken ensures s in Locs(pages')[base..base + n] {
        var j :| base <= j < base + n && pages'[j].loc == s;
        assert Locs(pages')[base..base + n][j - base] == s;
      }
    }
  }

  function BlankHeaders(): (r: seq<VtpmHeader>)
    ensures |r| == VTPMS_PER_SECTOR
  {
    seq(VTPMS_PER_SECTOR, _ => VtpmHeader(Zeros(16), 0))
  }

  function BlankData(): (r: seq<Blob>)
    ensures |r| == VTPMS_PER_SECTOR
  {
    seq(VTPMS_PER_SECTOR, _ => Zeros(64))
  }

  lemma LeafListed(c: Codec, disk: Disk, used: set<Sector>, key: Key, groupKey: Key, pages: seq<Page>,
                   base: nat, n: nat, hashes: seq<Digest>, locs: seq<Sector>)
    requires Sized(c) && base + n <= |pages| && n <= |hashes| == |locs| && |hashes| > 0
    requires PagesKept(c, disk, used, key, groupKey, pages, base, base + n)
    requires hashes[..n] == Hashes(pages)[base..base + n] && locs[..n] == Locs(pages)[base..base + n]
    ensures Listed(c, disk, used, key, Hashes(pages), Locs(pages), base, n, hashes, locs,
                   Leaves(hashes[..n], locs[..n], locs[..n]))
  {
    forall s | s in Locs(pages)[base..base + n] ensures Dynamic(s) && s in used {
      var j :| 0 <= j < n && Locs(pages)[base..base + n][j] == s;
      assert PageKept(c, disk, used, key, groupKey, pages[base + j], VTPMS_PER_SECTOR * (base + j));
    }
    ListedLeaf(c, disk, used, key, Hashes(pages), Locs(pages), base, n, hashes, locs);
  }

  lemma LeafEntries(hashes: seq<Digest>, locs: seq<Sector>, pages: seq<Page>, base: nat, n: nat)
    requires n <= |hashes| == |locs| && base + n <= |pages|
    requires forall j :: 0 <= j < n ==> hashes[j] == pages[base + j].hash && locs[j] == pages[base + j].loc
    ensures hashes[..n] == Hashes(pages)[base..base + n] && locs[..n] == Locs(pages)[base..base + n]
  {
    forall j | 0 <= j < n
      ensures hashes[..n][j] == Hashes(pages)[base..base + n][j] && locs[..n][j] == Locs(pages)[base..base + n][j]
    {
      assert Hashes(pages)[base..base + n][j] == Hashes(pages)[base + j];
      assert Locs(pages)[base..base + n][j] == Locs(pages)[base + j];
    }
  }

  /** The number of entries recorded for a level is the number of its children. */
  lemma LevelSize(n: nat, hsize: nat)
    requires hsize > 0 && n > 0
    ensures 1 + (n - 1) / Incr(n, hsize) == Count(n, hsize)
  {
    var incr := Incr(n, hsize);
    assert n + incr - 1 == (n - 1) + incr;
    DivStep(n - 1, incr);
  }

  lemma DivStep(a: nat, k: nat)
    requires k > 0
    ensures (a + k) / k == a / k + 1
  {
    Quotient(a, k);
    NextQuotient(a, k, a / k);
  }

  lemma NextQuotient(a: nat, k: nat, q: nat)
    requires k > 0 && q * k <= a < q * k + k
    ensures (a + k) / k == q + 1
  {
    OneMore(q, k);
    QuotientIs(a + k, k, q + 1);
  }

  lemma PageOpens(c: Codec, key: Key, iv: Blob, sector: PageSector)
    requires Faithful(c)
    ensures c.openPage(key, c.sealPage(key, iv, sector)) == Some(sector)
  {
  }
}
