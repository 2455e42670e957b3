/**
 Loading a group: the walk of its index tree, page by page, that fills in the group's memory, collects
 the sectors it uses and marks them in the allocation table.
 */
module DiskRead {
  import opened Wrappers
  import opened DiskFormat
  import opened IndexTree
  import opened DiskLoad
  import opened Authentic
  import opened DiskIo
  import opened Stored

  /** The sectors that the allocation table has room for. */
  function InTable(sectors: seq<Sector>): (r: set<Sector>) {
    set s | s in sectors && s <= DISK_MAX_SECTOR
  }

  /** Page k of a group, given its entry. */
  function PageAt(c: Codec, disk: Disk, key: Key, groupKey: Option<Key>, nrVtpms: nat, hash: Digest, loc: Sector,
                  k: nat)
    : (r: Option<Page>)
    requires Sized(c) && k < PagesFor(nrVtpms)
  {
    LoadPage(c, disk, key, groupKey, hash, loc, PageSize(nrVtpms, VTPMS_PER_SECTOR * k), VTPMS_PER_SECTOR * k)
  }

  /** The pages with the given entries, from page base on, all load. */
  ghost predicate Loads(c: Codec, disk: Disk, key: Key, groupKey: Option<Key>, nrVtpms: nat, hashes: seq<Digest>,
                        locs: seq<Sector>, base: nat)
    requires Sized(c) && |hashes| == |locs| && base + |hashes| <= PagesFor(nrVtpms)
  {
    forall i :: 0 <= i < |hashes| ==> PageAt(c, disk, key, groupKey, nrVtpms, hashes[i], locs[i], base + i).Some?
  }

  ghost function Segment(c: Codec, disk: Disk, key: Key, groupKey: Option<Key>, nrVtpms: nat, hashes: seq<Digest>,
                         locs: seq<Sector>, base: nat): (r: seq<Page>)
    requires Sized(c) && |hashes| == |locs| && base + |hashes| <= PagesFor(nrVtpms)
    requires Loads(c, disk, key, groupKey, nrVtpms, hashes, locs, base)
    ensures |r| == |hashes|
  {
    seq(|hashes|, i requires 0 <= i < |hashes| =>
      PageAt(c, disk, key, groupKey, nrVtpms, hashes[i], locs[i], base + i).value)
  }

  /** Where a run of pages goes.  As the code is written, the page pointer stays at the start of each
      leaf, so that only the leaf's last page remains. */
  function Put(fixed: bool, leaf: nat, pages: seq<Page>, base: nat, seg: seq<Page>): (r: seq<Page>)
    requires leaf > 0 && base + |seg| <= |pages|
    ensures |r| == |pages|
  {
    seq(|pages|, j requires 0 <= j < |pages| =>
      if !(base <= j < base + |seg|) then pages[j]
      else if fixed then seg[j - base]
      else if (j - base) % leaf != 0 then pages[j]
      else if j - base + leaf <= |seg| then seg[j - base + leaf - 1]
      else seg[|seg| - 1])
  }

  /** A leaf after its first i pages. */
  lemma PutNext(fixed: bool, leaf: nat, pages: seq<Page>, base: nat, seg: seq<Page>, i: nat)
    requires i < |seg| <= leaf && base + |seg| <= |pages|
    ensures Put(fixed, leaf, pages, base, seg[..i + 1])
         == Put(fixed, leaf, pages, base, seg[..i])[if fixed then base + i else base := seg[i]]
  {
    var x := Put(fixed, leaf, pages, base, seg[..i + 1]);
    var y := Put(fixed, leaf, pages, base, seg[..i])[if fixed then base + i else base := seg[i]];
    forall j | 0 <= j < |pages| ensures x[j] == y[j] {
      if base <= j < base + i + 1 {
        WithinLeaf(j - base, leaf);
      }
    }
  }

  lemma WithinLeaf(d: nat, leaf: nat)
    requires d < leaf
    ensures d % leaf == d
  {
  }

  /** Leaves one after the other. */
  lemma PutAppend(fixed: bool, pages: seq<Page>, base: nat, x: seq<Page>, y: seq<Page>)
    requires base + |x| + |y| <= |pages| && |x| % ENTRIES_PER_ITREE == 0
    ensures Put(fixed, ENTRIES_PER_ITREE, Put(fixed, ENTRIES_PER_ITREE, pages, base, x), base + |x|, y)
         == Put(fixed, ENTRIES_PER_ITREE, pages, base, x + y)
  {
  }

  /** The entries were found and their pages load. */
  ghost predicate Readable(c: Codec, disk: Disk, key: Key, groupKey: Option<Key>, nrVtpms: nat, base: nat,
                           leaves: Option<Leaves>)
    requires Sized(c)
  {
    && leaves.Some? && |leaves.value.hashes| == |leaves.value.locs|
    && base + |leaves.value.hashes| <= PagesFor(nrVtpms)
    && Loads(c, disk, key, groupKey, nrVtpms, leaves.value.hashes, leaves.value.locs, base)
  }

  /** The pages of the given entries have been put into their places. */
  ghost predicate Filled(c: Codec, disk: Disk, key: Key, groupKey: Option<Key>, nrVtpms: nat, base: nat, leaves: Leaves,
                         fixed: bool, leaf: nat, pages: seq<Page>, pages': seq<Page>)
    requires Sized(c) && leaf > 0
  {
    && |pages| == PagesFor(nrVtpms)
    && Readable(c, disk, key, groupKey, nrVtpms, base, Some(leaves))
    && pages' == Put(fixed, leaf, pages, base,
                     Segment(c, disk, key, groupKey, nrVtpms, leaves.hashes, leaves.locs, base))
  }

  lemma FilledNone(c: Codec, disk: Disk, key: Key, groupKey: Option<Key>, nrVtpms: nat, base: nat, fixed: bool,
                   leaf: nat, pages: seq<Page>)
    requires Sized(c) && leaf > 0 && |pages| == PagesFor(nrVtpms) && base <= |pages|
    ensures Filled(c, disk, key, groupKey, nrVtpms, base, Leaves([], [], []), fixed, leaf, pages, pages)
  {
  }

  lemma FilledAppend(c: Codec, disk: Disk, key: Key, groupKey: Option<Key>, nrVtpms: nat, base: nat, a: Leaves,
                     b: Leaves, fixed: bool, pages: seq<Page>, was: seq<Page>, pages': seq<Page>)
    requires Sized(c) && |a.hashes| % ENTRIES_PER_ITREE == 0
    requires Filled(c, disk, key, groupKey, nrVtpms, base, a, fixed, ENTRIES_PER_ITREE, pages, was)
    requires Filled(c, disk, key, groupKey, nrVtpms, base + |a.hashes|, b, fixed, ENTRIES_PER_ITREE, was, pages')
    ensures Filled(c, disk, key, groupKey, nrVtpms, base, Append(a, b), fixed, ENTRIES_PER_ITREE, pages, pages')
  {
    hide PageAt, Put;
    var x := Segment(c, disk, key, groupKey, nrVtpms, a.hashes, a.locs, base);
    var y := Segment(c, disk, key, groupKey, nrVtpms, b.hashes, b.locs, base + |a.hashes|);
    var ab := Append(a, b);
    forall i | 0 <= i < |ab.hashes|
      ensures PageAt(c, disk, key, groupKey, nrVtpms, ab.hashes[i], ab.locs[i], base + i) == Some((x + y)[i])
    {
      if i < |a.hashes| {
        assert PageAt(c, disk, key, groupKey, nrVtpms, a.hashes[i], a.locs[i], base + i).Some?;
      } else {
        var j := i - |a.hashes|;
        assert PageAt(c, disk, key, groupKey, nrVtpms, b.hashes[j], b.locs[j], base + |a.hashes| + j).Some?;
      }
    }
    assert Segment(c, disk, key, groupKey, nrVtpms, ab.hashes, ab.locs, base) == x + y;
    PutAppend(fixed, pages, base, x, y);
  }

  /** A walk that gets somewhere got to every place before. */
  lemma {:induction false} ResolvePrefix(c: Codec, disk: Disk, key: Key, n: nat, hsize: nat, hashes: seq<Digest>,
                                         locs: seq<Sector>, i: nat, j: nat)
    requires hsize > 0 && n > hsize && |hashes| == |locs| == hsize && i <= j <= Count(n, hsize) <= hsize
    requires ResolveUpTo(c, disk, key, n, hsize, hashes, locs, j).Some?
    ensures ResolveUpTo(c, disk, key, n, hsize, hashes, locs, i).Some?
    ensures var a := ResolveUpTo(c, disk, key, n, hsize, hashes, locs, i).value;
      var b := ResolveUpTo(c, disk, key, n, hsize, hashes, locs, j).value;
      a.hashes <= b.hashes && a.locs <= b.locs
    decreases j
  {
    hide Count, ChildSize, ResolveChild;
    if i < j {
      ResolvePrefix(c, disk, key, n, hsize, hashes, locs, i, j - 1);
    }
  }

  lemma ReadablePrefix(c: Codec, disk: Disk, key: Key, groupKey: Option<Key>, nrVtpms: nat, base: nat, a: Leaves,
                       b: Leaves)
    requires Sized(c) && Readable(c, disk, key, groupKey, nrVtpms, base, Some(b))
    requires |a.hashes| == |a.locs| && a.hashes <= b.hashes && a.locs <= b.locs
    ensures Readable(c, disk, key, groupKey, nrVtpms, base, Some(a))
  {
    hide PageAt;
    forall i | 0 <= i < |a.hashes|
      ensures PageAt(c, disk, key, groupKey, nrVtpms, a.hashes[i], a.locs[i], base + i).Some?
    {
      assert PageAt(c, disk, key, groupKey, nrVtpms, b.hashes[i], b.locs[i], base + i).Some?;
    }
  }

  lemma ReadableTail(c: Codec, disk: Disk, key: Key, groupKey: Option<Key>, nrVtpms: nat, base: nat, a: Leaves,
                     b: Leaves)
    requires Sized(c) && |a.hashes| == |a.locs| && |b.hashes| == |b.locs|
    requires Readable(c, disk, key, groupKey, nrVtpms, base, Some(Append(a, b)))
    ensures Readable(c, disk, key, groupKey, nrVtpms, base + |a.hashes|, Some(b))
  {
    hide PageAt;
    forall i | 0 <= i < |b.hashes|
      ensures PageAt(c, disk, key, groupKey, nrVtpms, b.hashes[i], b.locs[i], base + |a.hashes| + i).Some?
    {
      var ab := Append(a, b);
      assert PageAt(c, disk, key, groupKey, nrVtpms, ab.hashes[|a.hashes| + i], ab.locs[|a.hashes| + i],
                    base + (|a.hashes| + i)).Some?;
    }
  }

  /** A child that cannot be read makes the whole list unreadable. */
  lemma ChildFails(c: Codec, disk: Disk, key: Key, groupKey: Option<Key>, nrVtpms: nat, base: nat, n: nat, hsize: nat,
                   hashes: seq<Digest>, locs: seq<Sector>, i: nat, done: Leaves)
    requires Sized(c) && hsize > 0 && n > hsize && |hashes| == |locs| == hsize && i < Count(n, hsize) <= hsize
    requires ResolveUpTo(c, disk, key, n, hsize, hashes, locs, i) == Some(done)
    requires !Readable(c, disk, key, groupKey, nrVtpms, base + Covered(n, hsize, i),
                       ResolveChild(c, disk, key, ChildSize(n, hsize, i), hashes[i], locs[i]))
    ensures !Readable(c, disk, key, groupKey, nrVtpms, base, Resolve(c, disk, key, n, hsize, hashes, locs))
  {
    hide Count, ChildSize, Covered, ResolveChild, Readable;
    var all := Resolve(c, disk, key, n, hsize, hashes, locs);
    if Readable(c, disk, key, groupKey, nrVtpms, base, all) {
      ReadableSome(c, disk, key, groupKey, nrVtpms, base, all);
      ResolvePrefix(c, disk, key, n, hsize, hashes, locs, i + 1, Count(n, hsize));
      var next := ResolveUpTo(c, disk, key, n, hsize, hashes, locs, i + 1).value;
      var child := ResolveChild(c, disk, key, ChildSize(n, hsize, i), hashes[i], locs[i]).value;
      ReadablePrefix(c, disk, key, groupKey, nrVtpms, base, next, all.value);
      ReadableTail(c, disk, key, groupKey, nrVtpms, base, done, child);
      assert false;
    }
  }

  lemma ReadableSome(c: Codec, disk: Disk, key: Key, groupKey: Option<Key>, nrVtpms: nat, base: nat,
                     leaves: Option<Leaves>)
    requires Sized(c) && Readable(c, disk, key, groupKey, nrVtpms, base, leaves)
    ensures leaves.Some?
  {
  }

  /** Every child starts at a whole number of leaves. */
  lemma ChildAligned(n: nat, hsize: nat, i: nat)
    requires hsize > 0 && n > hsize && i < Count(n, hsize)
    ensures Covered(n, hsize, i) % ENTRIES_PER_ITREE == 0
  {
    Partition(n, hsize, i);
    IncrFromTight(n, hsize, 1);
    var q := Incr(n, hsize) / ENTRIES_PER_ITREE;
    assert Incr(n, hsize) == q * ENTRIES_PER_ITREE;
    Regroup(i, q);
  }

  lemma Regroup(i: nat, q: nat)
    ensures i * (q * ENTRIES_PER_ITREE) % ENTRIES_PER_ITREE == 0
  {
    assert i * (q * ENTRIES_PER_ITREE) == (i * q) * ENTRIES_PER_ITREE;
  }

  class Reader {
    const c: Codec
    const dev: Device
    const key: Key
    const slot: nat
    const fixed: bool

    ghost predicate Valid()
      reads this, dev, dev.inuse
    {
      Sized(c) && slot < 2 && dev.Valid() && |dev.used| == 2
    }

    constructor (c: Codec, dev: Device, key: Key, slot: nat, fixed: bool)
      requires Sized(c) && slot < 2 && dev.Valid()
      ensures Valid() && this.c == c && this.dev == dev && this.key == key && this.slot == slot && this.fixed == fixed
    {
      this.c, this.dev, this.key, this.slot, this.fixed := c, dev, key, slot, fixed;
    }

    /** load_verify_vtpm_page. */
    method ReadPage(hash: Digest, loc: Sector, k: nat, nrVtpms: nat, groupKey: Option<Key>) returns (r: Option<Page>)
      requires Valid() && k < PagesFor(nrVtpms)
      modifies dev`used, dev.inuse
      ensures Valid() && dev.used[1 - slot] == old(dev.used)[1 - slot]
      ensures dev.used[slot] == old(dev.used)[slot] + InTable([loc])
      ensures r == PageAt(c, dev.disk, key, groupKey, nrVtpms, hash, loc, k)
      ensures forall page ::
        r == Some(page) <==> PageShown(c, dev.disk, key, groupKey, hash, loc, PageSize(nrVtpms, VTPMS_PER_SECTOR * k),
                                       VTPMS_PER_SECTOR * k, page)
    {
      hide Sized, PageShown;
      var base := VTPMS_PER_SECTOR * k;
      var size := PageSize(nrVtpms, base);
      PageOnly(c, dev.disk, key, groupKey, hash, loc, size, base);
      dev.SetUsed(loc, slot);
      var pt := c.openPage(key, Read(dev.disk, loc));
      if pt.None? || c.hashPage(pt.value) != hash {
        return None;
      }
      if groupKey.None? {
        return Some(Page(hash, loc, []));
      }
      var data := Unwrapped(c, groupKey.value, pt.value.body);
      var vtpms := [];
      for i := 0 to size
        invariant |vtpms| == i
        invariant forall j :: 0 <= j < i ==>
          vtpms[j] == Vtpm(pt.value.headers[j].uuid, data[j], pt.value.headers[j].flags, base + j)
      {
        vtpms := vtpms + [Vtpm(pt.value.headers[i].uuid, data[i], pt.value.headers[i].flags, base + i)];
      }
      assert vtpms == Decode(c, groupKey.value, pt.value, size, base);
      return Some(Page(hash, loc, vtpms));
    }

    /** load_verify_vtpm_pages: the entries of one leaf. */
    method ReadPages(pages: seq<Page>, base: nat, size: nat, hashes: seq<Digest>, locs: seq<Sector>, nrVtpms: nat,
                     groupKey: Option<Key>, ghost leaf: nat)
      returns (ok: bool, pages': seq<Page>)
      requires Valid() && base + size <= |pages| == PagesFor(nrVtpms) && size <= |hashes| == |locs| && size <= leaf
      requires leaf > 0
      modifies dev`used, dev.inuse
      ensures Valid() && dev.used[1 - slot] == old(dev.used)[1 - slot]
      ensures ok <==> Loads(c, dev.disk, key, groupKey, nrVtpms, hashes[..size], locs[..size], base)
      ensures ok ==>
        && dev.used[slot] == old(dev.used)[slot] + InTable(locs[..size])
        && pages' == Put(fixed, leaf, pages, base,
                         Segment(c, dev.disk, key, groupKey, nrVtpms, hashes[..size], locs[..size], base))
    {
      hide PageAt;
      pages' := pages;
      var at := base;
      ghost var seg := [];
      for i := 0 to size
        invariant Valid() && dev.used[1 - slot] == old(dev.used)[1 - slot]
        invariant dev.used[slot] == old(dev.used)[slot] + InTable(locs[..i])
        invariant at == (if fixed then base + i else base) && |seg| == i
        invariant forall j :: 0 <= j < i ==>
          PageAt(c, dev.disk, key, groupKey, nrVtpms, hashes[j], locs[j], base + j) == Some(seg[j])
        invariant pages' == Put(fixed, leaf, pages, base, seg)
      {
        var page := ReadPage(hashes[i], locs[i], base + i, nrVtpms, groupKey);
        if page.None? {
          return false, pages';
        }
        pages' := pages'[at := page.value];
        PutNext(fixed, leaf, pages, base, seg + [page.value], i);
        assert (seg + [page.value])[..i] == seg && (seg + [page.value])[..i + 1] == seg + [page.value];
        seg := seg + [page.value];
        assert locs[..i + 1] == locs[..i] + [locs[i]];
        if fixed {
          at := at + 1;
        }
      }
      ok := true;
      assert seg == Segment(c, dev.disk, key, groupKey, nrVtpms, hashes[..size], locs[..size], base);
    }

    /** load_verify_vtpm_itree: collects the sectors of this level, then reads the pages or walks down. */
    method ReadVtpmItree(pages: seq<Page>, inuse: seq<Sector>, base: nat, n: nat, hashes: seq<Digest>,
                         locs: seq<Sector>, nrVtpms: nat, groupKey: Option<Key>, ghost leaf: nat)
      returns (ok: bool, pages': seq<Page>, inuse': seq<Sector>)
      requires Valid() && base + n <= |pages| == PagesFor(nrVtpms) && 0 < |hashes| == |locs|
      requires leaf > 0 && (leaf == ENTRIES_PER_ITREE || n <= |hashes|) && (n <= |hashes| ==> n <= leaf)
      modifies dev`used, dev.inuse
      ensures Valid() && dev.used[1 - slot] == old(dev.used)[1 - slot]
      ensures var leaves := Resolve(c, dev.disk, key, n, |hashes|, hashes, locs);
        && (ok <==> Readable(c, dev.disk, key, groupKey, nrVtpms, base, leaves))
        && (ok ==> leaves.Some?
                   && Filled(c, dev.disk, key, groupKey, nrVtpms, base, leaves.value, fixed, leaf, pages, pages')
                   && inuse' == inuse + leaves.value.inuse
                   && dev.used[slot] == old(dev.used)[slot] + InTable(leaves.value.inuse))
      decreases n, Rank(|hashes|), 1
    {
      hide Count, Loads, Put;
      var hsize := |hashes|;
      var count := Count(n, hsize);
      CountBound(n, hsize);
      inuse' := inuse + locs[..count];
      if n <= hsize {
        assert count == n by { CountSmall(n, hsize); }
        ok, pages' := ReadPages(pages, base, n, hashes, locs, nrVtpms, groupKey, leaf);
      } else {
        ghost var done;
        ok, pages', inuse', done := ReadChildren(pages, inuse', base, n, hashes, locs, nrVtpms, groupKey);
        if ok {
          assert InTable(locs[..count] + done.inuse) == InTable(locs[..count]) + InTable(done.inuse);
          assert inuse + locs[..count] + done.inuse == inuse + (locs[..count] + done.inuse);
          FilledInuse(c, dev.disk, key, groupKey, nrVtpms, base, done, locs[..count] + done.inuse, fixed, pages,
                      pages');
        }
      }
    }

    /** The loop over the index sectors of one level. */
    method ReadChildren(pages: seq<Page>, inuse: seq<Sector>, base: nat, n: nat, hashes: seq<Digest>, locs: seq<Sector>,
                        nrVtpms: nat, groupKey: Option<Key>)
      returns (ok: bool, pages': seq<Page>, inuse': seq<Sector>, ghost done: Leaves)
      requires Valid() && base + n <= |pages| == PagesFor(nrVtpms) && 0 < |hashes| == |locs| < n
      modifies dev`used, dev.inuse
      ensures Valid() && dev.used[1 - slot] == old(dev.used)[1 - slot]
      ensures Count(n, |hashes|) <= |hashes|
      ensures ok <==> Readable(c, dev.disk, key, groupKey, nrVtpms, base,
                               Resolve(c, dev.disk, key, n, |hashes|, hashes, locs))
      ensures ok ==>
        && ResolveUpTo(c, dev.disk, key, n, |hashes|, hashes, locs, Count(n, |hashes|)) == Some(done)
        && Filled(c, dev.disk, key, groupKey, nrVtpms, base, done, fixed, ENTRIES_PER_ITREE, pages, pages')
        && inuse' == inuse + done.inuse
        && dev.used[slot] == old(dev.used)[slot] + InTable(locs[..Count(n, |hashes|)]) + InTable(done.inuse)
      decreases n, Rank(|hashes|), 0
    {
      hide Count, Covered, ChildSize, Resolve, ResolveUpTo, ResolveChild, Append, Readable, Filled, InTable,
           Device.Valid;
      var hsize := |hashes|;
      CountBound(n, hsize);
      ResolveNone(c, dev.disk, key, n, hsize, hashes, locs);
      pages', inuse', done := pages, inuse, Leaves([], [], []);
      FilledNone(c, dev.disk, key, groupKey, nrVtpms, base, fixed, ENTRIES_PER_ITREE, pages);
      var count := Count(n, hsize);
      InTableNone();
      for i := 0 to count
        invariant Valid() && dev.used[1 - slot] == old(dev.used)[1 - slot]
        invariant ResolveUpTo(c, dev.disk, key, n, hsize, hashes, locs, i) == Some(done)
        invariant |pages'| == |pages|
        invariant Filled(c, dev.disk, key, groupKey, nrVtpms, base, done, fixed, ENTRIES_PER_ITREE, pages, pages')
        invariant inuse' == inuse + done.inuse
        invariant dev.used[slot] == old(dev.used)[slot] + InTable(locs[..i]) + InTable(done.inuse)
      {
        Partition(n, hsize, i);
        ChildIsSmaller(n, hsize, i);
        ChildAligned(n, hsize, i);
        CoveredBound(n, hsize, i + 1);
        ghost var was := pages';
        dev.SetUsed(locs[i], slot);
        var pt := c.openItree(key, Read(dev.disk, locs[i]));
        ResolveBelow(c, dev.disk, key, ChildSize(n, hsize, i), hashes[i], locs[i]);
        if pt.None? || c.hashItree(pt.value.hashes) != hashes[i] {
          NotReadable(c, dev.disk, key, groupKey, nrVtpms, base + Covered(n, hsize, i));
          ChildFails(c, dev.disk, key, groupKey, nrVtpms, base, n, hsize, hashes, locs, i, done);
          return false, pages', inuse', done;
        }
        var sector := pt.value;
        ok, pages', inuse' := ReadVtpmItree(pages', inuse', base + Covered(n, hsize, i), ChildSize(n, hsize, i),
                                            sector.hashes, sector.locs, nrVtpms, groupKey, ENTRIES_PER_ITREE);
        ghost var below := ResolveChild(c, dev.disk, key, ChildSize(n, hsize, i), hashes[i], locs[i]);
        if !ok {
          ChildFails(c, dev.disk, key, groupKey, nrVtpms, base, n, hsize, hashes, locs, i, done);
          return false, pages', inuse', done;
        }
        FilledAppend(c, dev.disk, key, groupKey, nrVtpms, base, done, below.value, fixed, pages, was, pages');
        FilledSize(c, dev.disk, key, groupKey, nrVtpms, base, Append(done, below.value), fixed, pages, pages');
        InTableNext(locs, i, done.inuse, below.value.inuse);
        ResolveNext(c, dev.disk, key, n, hsize, hashes, locs, i, done, below.value);
        AppendInuse(inuse, done, below.value);
        done := Append(done, below.value);
      }
      ok := true;
      AllReadable(c, dev.disk, key, groupKey, nrVtpms, base, n, hashes, locs, done, fixed, pages, pages');
    }
  }

  function Unwrapped(c: Codec, key: Key, body: Blob): (r: seq<Blob>)
    requires Sized(c)
    ensures |r| == VTPMS_PER_SECTOR
  {
    c.unwrap(key, body)
  }

  lemma CountSmall(n: nat, hsize: nat)
    requires 0 < hsize && n <= hsize
    ensures Count(n, hsize) == n
  {
    assert Incr(n, hsize) == 1;
  }

  /** The list of sectors plays no part in filling the pages. */
  lemma FilledInuse(c: Codec, disk: Disk, key: Key, groupKey: Option<Key>, nrVtpms: nat, base: nat, leaves: Leaves,
                    inuse: seq<Sector>, fixed: bool, pages: seq<Page>, pages': seq<Page>)
    requires Sized(c) && Filled(c, disk, key, groupKey, nrVtpms, base, leaves, fixed, ENTRIES_PER_ITREE, pages, pages')
    ensures Filled(c, disk, key, groupKey, nrVtpms, base, leaves.(inuse := inuse), fixed, ENTRIES_PER_ITREE, pages,
                   pages')
  {
    hide Loads, Put;
  }

  lemma FilledSize(c: Codec, disk: Disk, key: Key, groupKey: Option<Key>, nrVtpms: nat, base: nat, leaves: Leaves,
                   fixed: bool, pages: seq<Page>, pages': seq<Page>)
    requires Sized(c) && Filled(c, disk, key, groupKey, nrVtpms, base, leaves, fixed, ENTRIES_PER_ITREE, pages, pages')
    ensures |pages'| == |pages|
  {
    hide Loads;
  }

  lemma AllReadable(c: Codec, disk: Disk, key: Key, groupKey: Option<Key>, nrVtpms: nat, base: nat, n: nat,
                    hashes: seq<Digest>, locs: seq<Sector>, done: Leaves, fixed: bool, pages: seq<Page>,
                    pages': seq<Page>)
    requires Sized(c) && 0 < |hashes| == |locs| < n && Count(n, |hashes|) <= |hashes|
    requires ResolveUpTo(c, disk, key, n, |hashes|, hashes, locs, Count(n, |hashes|)) == Some(done)
    requires Filled(c, disk, key, groupKey, nrVtpms, base, done, fixed, ENTRIES_PER_ITREE, pages, pages')
    ensures Readable(c, disk, key, groupKey, nrVtpms, base, Resolve(c, disk, key, n, |hashes|, hashes, locs))
  {
    hide Count, ResolveUpTo, Loads, Put;
  }

  lemma NotReadable(c: Codec, disk: Disk, key: Key, groupKey: Option<Key>, nrVtpms: nat, base: nat)
    requires Sized(c)
    ensures !Readable(c, disk, key, groupKey, nrVtpms, base, None)
  {
  }

  lemma AppendInuse(inuse: seq<Sector>, a: Leaves, b: Leaves)
    ensures Append(a, b).inuse == a.inuse + b.inuse && inuse + a.inuse + b.inuse == inuse + Append(a, b).inuse
  {
  }

  lemma InTableNone()
    ensures InTable([]) == {}
  {
  }

  lemma InTableNext(locs: seq<Sector>, i: nat, a: seq<Sector>, b: seq<Sector>)
    requires i < |locs|
    ensures InTable(locs[..i + 1]) + InTable(a + b) == InTable(locs[..i]) + InTable(a) + InTable([locs[i]]) + InTable(b)
    ensures InTable([locs[i]]) == if locs[i] <= DISK_MAX_SECTOR then {locs[i]} else {}
  {
    assert locs[..i + 1] == locs[..i] + [locs[i]];
  }
}
