/**
 The index trees of the disk format.  A list of entries (hash, location) that does not fit into its
 parent is split over index sectors, whose hashes and locations the parent holds instead.  Reader
 and writer both walk this shape; `Resolve` is the walk as a function of the disk.
 */
module IndexTree {
  import opened Wrappers
  import opened DiskFormat

  /** The loop that deepens the tree until n entries fit below hsize children. */
  function IncrFrom(n: nat, hsize: nat, incr: nat): (r: nat)
    requires hsize > 0 && incr > 0
    ensures r >= incr && n <= r * hsize
    decreases n - incr
  {
    if n > incr * hsize then
      MulGrows(incr, hsize);
      IncrFrom(n, hsize, incr * ENTRIES_PER_ITREE)
    else incr
  }

  lemma MulGrows(a: nat, b: nat)
    requires b > 0
    ensures a * b >= a
  {
  }

  /** Entries below each child but possibly the last. */
  function Incr(n: nat, hsize: nat): (r: nat)
    requires hsize > 0
    ensures r >= 1 && n <= r * hsize
  {
    IncrFrom(n, hsize, 1)
  }

  function Count(n: nat, hsize: nat): (r: nat)
    requires hsize > 0
  {
    (n + Incr(n, hsize) - 1) / Incr(n, hsize)
  }

  /** Entries below the first i children. */
  function Covered(n: nat, hsize: nat, i: nat): (r: nat)
    requires hsize > 0
  {
    if n < i * Incr(n, hsize) then n else i * Incr(n, hsize)
  }

  /** Entries below child i; the last one is not completely full. */
  function ChildSize(n: nat, hsize: nat, i: nat): (r: nat)
    requires hsize > 0 && i < Count(n, hsize)
  {
    var incr := Incr(n, hsize);
    Started(n, incr, i);
    if n - i * incr < incr then n - i * incr else incr
  }

  lemma Started(n: nat, incr: nat, i: nat)
    requires incr > 0
    ensures i < (n + incr - 1) / incr <==> i * incr < n
  {
    var q := (n + incr - 1) / incr;
    Quotient(n + incr - 1, incr);
    if i < q {
      Scaled(i + 1, q, incr);
    } else {
      Scaled(q, i, incr);
    }
  }

  lemma Quotient(m: nat, d: nat)
    requires d > 0
    ensures m / d * d <= m < m / d * d + d
  {
  }

  lemma QuotientIs(m: nat, d: nat, q: nat)
    requires d > 0 && q * d <= m < q * d + d
    ensures m / d == q
  {
    var p := m / d;
    Quotient(m, d);
    OneMore(p, d);
    OneMore(q, d);
    if p < q {
      Scaled(p + 1, q, d);
    } else if q < p {
      Scaled(q + 1, p, d);
    }
  }

  lemma OneMore(q: nat, d: nat)
    ensures (q + 1) * d == q * d + d
  {
  }

  lemma Scaled(a: nat, b: nat, d: nat)
    requires a <= b
    ensures a * d <= b * d
  {
  }

  /** A list that does not fit is pushed one level down, and no level is deeper than it must be. */
  lemma {:induction false} IncrFromTight(n: nat, hsize: nat, incr: nat)
    requires hsize > 0 && incr > 0 && n > incr * hsize
    ensures var r := IncrFrom(n, hsize, incr);
      r % ENTRIES_PER_ITREE == 0 && n > r / ENTRIES_PER_ITREE * hsize
    decreases n - incr
  {
    MulGrows(incr, hsize);
    var next := incr * ENTRIES_PER_ITREE;
    if n > next * hsize {
      IncrFromTight(n, hsize, next);
    } else {
      assert next / ENTRIES_PER_ITREE == incr;
    }
  }

  ghost function Power(k: nat): (r: nat)
    ensures r > 0
  {
    if k == 0 then 1 else Power(k - 1) * ENTRIES_PER_ITREE
  }

  /** n entries need k levels of index sectors below a node of hsize children, and no fewer. */
  ghost predicate Depth(n: nat, hsize: nat, k: nat) {
    n <= Power(k) * hsize && forall j :: 0 <= j < k ==> n > Power(j) * hsize
  }

  lemma {:induction false} IncrFromDepth(n: nat, hsize: nat, j: nat, k: nat)
    requires hsize > 0 && j <= k && Depth(n, hsize, k)
    ensures IncrFrom(n, hsize, Power(j)) == Power(k)
    decreases k - j
  {
    if j < k {
      IncrFromDepth(n, hsize, j + 1, k);
    }
  }

  /** The children are as large as trees of the least depth that suffices. */
  lemma IncrIsPower(n: nat, hsize: nat) returns (k: nat)
    requires hsize > 0
    ensures Depth(n, hsize, k) && Incr(n, hsize) == Power(k)
  {
    k := 0;
    while n > Power(k) * hsize
      invariant forall j :: 0 <= j < k ==> n > Power(j) * hsize
      decreases n - Power(k)
    {
      MulGrows(Power(k), hsize);
      k := k + 1;
    }
    IncrFromDepth(n, hsize, 0, k);
  }

  /** Why the recursion stops: below an index sector the list gets shorter, and below a root or group
      sector, where it may stay as long as it is, the children are index sectors. */
  lemma ChildIsSmaller(n: nat, hsize: nat, i: nat)
    requires hsize > 0 && n > hsize && i < Count(n, hsize)
    ensures 0 < ChildSize(n, hsize, i) <= n
    ensures hsize == ENTRIES_PER_ITREE ==> ChildSize(n, hsize, i) < n
  {
    Started(n, Incr(n, hsize), i);
    IncrFromTight(n, hsize, 1);
    MulGrows(i, Incr(n, hsize));
  }

  /** The children are at most hsize, they cover the n entries in order, and none is empty. */
  lemma Partition(n: nat, hsize: nat, i: nat)
    requires hsize > 0 && i < Count(n, hsize)
    ensures i < hsize
    ensures Covered(n, hsize, 0) == 0 && Covered(n, hsize, Count(n, hsize)) == n
    ensures Covered(n, hsize, i) == i * Incr(n, hsize) < n
    ensures Covered(n, hsize, i + 1) == Covered(n, hsize, i) + ChildSize(n, hsize, i)
  {
    var incr := Incr(n, hsize);
    Started(n, incr, i);
    Started(n, incr, Count(n, hsize));
    assert (i + 1) * incr == i * incr + incr;
    MulCancels(i, hsize, incr);
  }

  lemma MulCancels(a: nat, b: nat, k: nat)
    requires a * k < b * k
    ensures a < b
  {
    if a >= b {
      Scaled(b, a, k);
    }
  }

  lemma CountBound(n: nat, hsize: nat)
    requires hsize > 0
    ensures Count(n, hsize) <= hsize
    ensures Covered(n, hsize, 0) == 0 && Covered(n, hsize, Count(n, hsize)) == n
  {
    if Count(n, hsize) > 0 {
      Partition(n, hsize, Count(n, hsize) - 1);
    } else {
      Started(n, Incr(n, hsize), 0);
    }
  }

  /** The entries of a list in order, and every sector that holds a part of the list: the index
      sectors and the entries' own sectors. */
  datatype Leaves = Leaves(hashes: seq<Digest>, locs: seq<Sector>, inuse: seq<Sector>)

  function Rank(hsize: nat): (r: nat) {
    if hsize == ENTRIES_PER_ITREE then 0 else 1
  }

  /** Walks the tree of n entries whose top level is (hashes, locs), verifying every index sector
      against the hash that its parent holds. */
  function Resolve(c: Codec, disk: Disk, key: Key, n: nat, hsize: nat, hashes: seq<Digest>,
                   locs: seq<Sector>): (r: Option<Leaves>)
    requires hsize > 0 && |hashes| == |locs| == hsize
    ensures r.Some? ==> |r.value.hashes| == |r.value.locs| == n
    decreases n, Rank(hsize), Count(n, hsize) + 1
  {
    if n <= hsize then
      Some(Leaves(hashes[..n], locs[..n], locs[..n]))
    else
      CountBound(n, hsize);
      var below := ResolveUpTo(c, disk, key, n, hsize, hashes, locs, Count(n, hsize));
      if below.None? then None
      else Some(below.value.(inuse := locs[..Count(n, hsize)] + below.value.inuse))
  }

  /** The first i children of a tree that needs index sectors. */
  function ResolveUpTo(c: Codec, disk: Disk, key: Key, n: nat, hsize: nat, hashes: seq<Digest>,
                       locs: seq<Sector>, i: nat): (r: Option<Leaves>)
    requires hsize > 0 && n > hsize && |hashes| == |locs| == hsize && i <= Count(n, hsize) <= hsize
    ensures r.Some? ==> |r.value.hashes| == |r.value.locs| == Covered(n, hsize, i)
    decreases n, Rank(hsize), i
  {
    CountBound(n, hsize);
    if i == 0 then Some(Leaves([], [], []))
    else
      Partition(n, hsize, i - 1);
      ChildIsSmaller(n, hsize, i - 1);
      var before := ResolveUpTo(c, disk, key, n, hsize, hashes, locs, i - 1);
      var child := ResolveChild(c, disk, key, ChildSize(n, hsize, i - 1), hashes[i - 1], locs[i - 1]);
      if before.None? || child.None? then None
      else Some(Append(before.value, child.value))
  }

  /** One index sector and the tree of n entries below it. */
  function ResolveChild(c: Codec, disk: Disk, key: Key, n: nat, hash: Digest, loc: Sector): (r: Option<Leaves>)
    ensures r.Some? ==> |r.value.hashes| == |r.value.locs| == n
    decreases n, 0, Count(n, ENTRIES_PER_ITREE) + 2
  {
    var sector := c.openItree(key, Read(disk, loc));
    if sector.None? || c.hashItree(sector.value.hashes) != hash then None
    else Resolve(c, disk, key, n, ENTRIES_PER_ITREE, sector.value.hashes, sector.value.locs)
  }

  lemma ResolveNone(c: Codec, disk: Disk, key: Key, n: nat, hsize: nat, hashes: seq<Digest>, locs: seq<Sector>)
    requires hsize > 0 && n > hsize && |hashes| == |locs| == hsize && Count(n, hsize) <= hsize
    ensures ResolveUpTo(c, disk, key, n, hsize, hashes, locs, 0) == Some(Leaves([], [], []))
  {
    hide Count, Covered;
  }

  lemma ResolveNext(c: Codec, disk: Disk, key: Key, n: nat, hsize: nat, hashes: seq<Digest>, locs: seq<Sector>, i: nat,
                    done: Leaves, below: Leaves)
    requires hsize > 0 && n > hsize && |hashes| == |locs| == hsize && i < Count(n, hsize) <= hsize
    requires ResolveUpTo(c, disk, key, n, hsize, hashes, locs, i) == Some(done)
    requires ResolveChild(c, disk, key, ChildSize(n, hsize, i), hashes[i], locs[i]) == Some(below)
    ensures ResolveUpTo(c, disk, key, n, hsize, hashes, locs, i + 1) == Some(Append(done, below))
  {
    hide Count, Covered, ChildSize, ResolveChild, Append;
  }

  lemma ResolveBelow(c: Codec, disk: Disk, key: Key, n: nat, hash: Digest, loc: Sector)
    ensures var sector := c.openItree(key, Read(disk, loc));
      ResolveChild(c, disk, key, n, hash, loc)
      == if sector.None? || c.hashItree(sector.value.hashes) != hash then None
         else Resolve(c, disk, key, n, ENTRIES_PER_ITREE, sector.value.hashes, sector.value.locs)
  {
    hide Resolve;
  }

  function Append(a: Leaves, b: Leaves): (r: Leaves) {
    Leaves(a.hashes + b.hashes, a.locs + b.locs, a.inuse + b.inuse)
  }

  /** Both disks return the same for each of the given sectors. */
  ghost predicate Agree(a: Disk, b: Disk, sectors: seq<Sector>) {
    forall s :: s in sectors ==> Read(a, s) == Read(b, s)
  }

  /** An entry's own sector counts as part of the list. */
  lemma {:induction false} LocsInUse(c: Codec, disk: Disk, key: Key, n: nat, hsize: nat,
                                     hashes: seq<Digest>, locs: seq<Sector>)
    requires hsize > 0 && |hashes| == |locs| == hsize
    requires Resolve(c, disk, key, n, hsize, hashes, locs).Some?
    ensures var r := Resolve(c, disk, key, n, hsize, hashes, locs).value;
      forall s :: s in r.locs ==> s in r.inuse
    decreases n, Rank(hsize), Count(n, hsize) + 1
  {
    if n > hsize {
      CountBound(n, hsize);
      LocsInUseUpTo(c, disk, key, n, hsize, hashes, locs, Count(n, hsize));
    }
  }

  lemma {:induction false} LocsInUseUpTo(c: Codec, disk: Disk, key: Key, n: nat, hsize: nat,
                                         hashes: seq<Digest>, locs: seq<Sector>, i: nat)
    requires hsize > 0 && n > hsize && |hashes| == |locs| == hsize && i <= Count(n, hsize) <= hsize
    requires ResolveUpTo(c, disk, key, n, hsize, hashes, locs, i).Some?
    ensures var r := ResolveUpTo(c, disk, key, n, hsize, hashes, locs, i).value;
      forall s :: s in r.locs ==> s in r.inuse
    decreases n, Rank(hsize), i
  {
    hide Count, ChildSize, Resolve;
    if i > 0 {
      Partition(n, hsize, i - 1);
      ChildIsSmaller(n, hsize, i - 1);
      LocsInUseUpTo(c, disk, key, n, hsize, hashes, locs, i - 1);
      var t := c.openItree(key, Read(disk, locs[i - 1])).value;
      LocsInUse(c, disk, key, ChildSize(n, hsize, i - 1), ENTRIES_PER_ITREE, t.hashes, t.locs);
    }
  }

  /** The walk depends on no sector outside the list. */
  lemma {:induction false} ResolveFrame(c: Codec, a: Disk, b: Disk, key: Key, n: nat, hsize: nat,
                                        hashes: seq<Digest>, locs: seq<Sector>)
    requires hsize > 0 && |hashes| == |locs| == hsize
    requires Resolve(c, a, key, n, hsize, hashes, locs).Some?
    requires Agree(a, b, Resolve(c, a, key, n, hsize, hashes, locs).value.inuse)
    ensures Resolve(c, b, key, n, hsize, hashes, locs) == Resolve(c, a, key, n, hsize, hashes, locs)
    decreases n, Rank(hsize), Count(n, hsize) + 1
  {
    if n > hsize {
      CountBound(n, hsize);
      var below := ResolveUpTo(c, a, key, n, hsize, hashes, locs, Count(n, hsize)).value;
      assert Agree(a, b, below.inuse);
      assert Agree(a, b, locs[..Count(n, hsize)]);
      ResolveUpToFrame(c, a, b, key, n, hsize, hashes, locs, Count(n, hsize));
    }
  }

  lemma {:induction false} ResolveUpToFrame(c: Codec, a: Disk, b: Disk, key: Key, n: nat, hsize: nat,
                                            hashes: seq<Digest>, locs: seq<Sector>, i: nat)
    requires hsize > 0 && n > hsize && |hashes| == |locs| == hsize && i <= Count(n, hsize) <= hsize
    requires ResolveUpTo(c, a, key, n, hsize, hashes, locs, i).Some?
    requires Agree(a, b, ResolveUpTo(c, a, key, n, hsize, hashes, locs, i).value.inuse)
    requires Agree(a, b, locs[..i])
    ensures ResolveUpTo(c, b, key, n, hsize, hashes, locs, i) == ResolveUpTo(c, a, key, n, hsize, hashes, locs, i)
    decreases n, Rank(hsize), i
  {
    hide Count, ChildSize, Resolve;
    if i > 0 {
      Partition(n, hsize, i - 1);
      ChildIsSmaller(n, hsize, i - 1);
      assert locs[..i][i - 1] == locs[i - 1];
      assert Agree(a, b, locs[..i - 1]) by { assert forall s :: s in locs[..i - 1] ==> s in locs[..i]; }
      ResolveUpToFrame(c, a, b, key, n, hsize, hashes, locs, i - 1);
      var t := c.openItree(key, Read(a, locs[i - 1])).value;
      ResolveFrame(c, a, b, key, ChildSize(n, hsize, i - 1), ENTRIES_PER_ITREE, t.hashes, t.locs);
    }
  }

  /** Entries beyond the ones that are used do not matter. */
  lemma {:induction false} ResolveUpToSame(c: Codec, disk: Disk, key: Key, n: nat, hsize: nat,
                                           hashes: seq<Digest>, locs: seq<Sector>,
                                           hashes': seq<Digest>, locs': seq<Sector>, i: nat)
    requires hsize > 0 && n > hsize && |hashes| == |locs| == hsize && i <= Count(n, hsize) <= hsize
    requires |hashes'| == |locs'| == hsize
    requires forall j :: 0 <= j < i ==> hashes[j] == hashes'[j] && locs[j] == locs'[j]
    ensures ResolveUpTo(c, disk, key, n, hsize, hashes, locs, i)
         == ResolveUpTo(c, disk, key, n, hsize, hashes', locs', i)
    decreases i
  {
    hide Count, ChildSize, ResolveChild;
    if i > 0 {
      ResolveUpToSame(c, disk, key, n, hsize, hashes, locs, hashes', locs', i - 1);
    }
  }

  /** Merkle determinism: two disks on which the same top-level hashes verify hold the same entry
      hashes, wherever their sectors lie. */
  lemma {:induction false} ResolveDetermined(c: Codec, a: Disk, b: Disk, key: Key, blobs: set<Blob>, n: nat,
                                             hsize: nat, hashes: seq<Digest>, locsA: seq<Sector>,
                                             locsB: seq<Sector>)
    requires hsize > 0 && |hashes| == |locsA| == |locsB| == hsize
    requires Blobs(a) <= blobs && Blobs(b) <= blobs && NoCollision(c, key, blobs)
    requires Resolve(c, a, key, n, hsize, hashes, locsA).Some?
    requires Resolve(c, b, key, n, hsize, hashes, locsB).Some?
    ensures Resolve(c, a, key, n, hsize, hashes, locsA).value.hashes
         == Resolve(c, b, key, n, hsize, hashes, locsB).value.hashes
    decreases n, Rank(hsize), Count(n, hsize) + 1
  {
    if n > hsize {
      CountBound(n, hsize);
      ResolveUpToDetermined(c, a, b, key, blobs, n, hsize, hashes, locsA, locsB, Count(n, hsize));
    }
  }

  lemma {:induction false} ResolveUpToDetermined(c: Codec, a: Disk, b: Disk, key: Key, blobs: set<Blob>,
                                                 n: nat, hsize: nat, hashes: seq<Digest>,
                                                 locsA: seq<Sector>, locsB: seq<Sector>, i: nat)
    requires hsize > 0 && n > hsize && |hashes| == |locsA| == |locsB| == hsize && i <= Count(n, hsize) <= hsize
    requires Blobs(a) <= blobs && Blobs(b) <= blobs && NoCollision(c, key, blobs)
    requires ResolveUpTo(c, a, key, n, hsize, hashes, locsA, i).Some?
    requires ResolveUpTo(c, b, key, n, hsize, hashes, locsB, i).Some?
    ensures ResolveUpTo(c, a, key, n, hsize, hashes, locsA, i).value.hashes
         == ResolveUpTo(c, b, key, n, hsize, hashes, locsB, i).value.hashes
    decreases n, Rank(hsize), i
  {
    hide Count, ChildSize, Resolve, NoCollision;
    if i > 0 {
      Partition(n, hsize, i - 1);
      ChildIsSmaller(n, hsize, i - 1);
      ResolveUpToDetermined(c, a, b, key, blobs, n, hsize, hashes, locsA, locsB, i - 1);
      var m := ChildSize(n, hsize, i - 1);
      var ta := c.openItree(key, Read(a, locsA[i - 1])).value;
      var tb := c.openItree(key, Read(b, locsB[i - 1])).value;
      ItreeDetermined(c, key, blobs, a, b, locsA[i - 1], locsB[i - 1]);
      ResolveDetermined(c, a, b, key, blobs, m, ENTRIES_PER_ITREE, ta.hashes, ta.locs, tb.locs);
    }
  }

  lemma ItreeDetermined(c: Codec, key: Key, blobs: set<Blob>, a: Disk, b: Disk, locA: Sector, locB: Sector)
    requires Blobs(a) <= blobs && Blobs(b) <= blobs && NoCollision(c, key, blobs)
    requires c.openItree(key, Read(a, locA)).Some? && c.openItree(key, Read(b, locB)).Some?
    requires c.hashItree(c.openItree(key, Read(a, locA)).value.hashes)
          == c.hashItree(c.openItree(key, Read(b, locB)).value.hashes)
    ensures c.openItree(key, Read(a, locA)).value.hashes == c.openItree(key, Read(b, locB)).value.hashes
  {
    ReadIsBlob(a, locA);
    ReadIsBlob(b, locB);
  }
}
