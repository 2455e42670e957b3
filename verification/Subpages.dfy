/**
 The allocator for parts of execute-only pages: one bitmap word per page, first fit, and a reference
 count of eight bits.
 */
module Subpages {

  const PAGE_SIZE: nat := 4096
  const SUBPAGE_SIZE: nat := 128
  const SUBPAGES_PER_PAGE: nat := 32
  const MAX_SUBPAGES_PER_CMD: nat := 31

  /* Words as numbers. */

  predicate Bit(x: nat, i: nat)
    decreases i
  {
    if i == 0 then x % 2 == 1 else Bit(x / 2, i - 1)
  }

  function And(a: nat, b: nat): (r: nat) {
    if a == 0 || b == 0 then 0 else (a % 2) * (b % 2) + 2 * And(a / 2, b / 2)
  }

  function Or(a: nat, b: nat): (r: nat) {
    if a == 0 then b
    else if b == 0 then a
    else (if a % 2 == 1 || b % 2 == 1 then 1 else 0) + 2 * Or(a / 2, b / 2)
  }

  function ShiftLeft(x: nat, k: nat): (r: nat) {
    if k == 0 then x else 2 * ShiftLeft(x, k - 1)
  }

  /** (1 << n) - 1. */
  function Ones(n: nat): (r: nat) {
    if n == 0 then 0 else 2 * Ones(n - 1) + 1
  }

  lemma {:induction false} ZeroBits(i: nat)
    ensures !Bit(0, i)
  {
    if i > 0 {
      ZeroBits(i - 1);
    }
  }

  lemma {:induction false} AndBits(a: nat, b: nat, i: nat)
    ensures Bit(And(a, b), i) <==> Bit(a, i) && Bit(b, i)
    decreases i
  {
    ZeroBits(i);
    if i > 0 && a > 0 && b > 0 {
      AndBits(a / 2, b / 2, i - 1);
      assert And(a, b) / 2 == And(a / 2, b / 2);
    }
  }

  lemma {:induction false} OrBits(a: nat, b: nat, i: nat)
    ensures Bit(Or(a, b), i) <==> Bit(a, i) || Bit(b, i)
    decreases i
  {
    ZeroBits(i);
    if i > 0 && a > 0 && b > 0 {
      OrBits(a / 2, b / 2, i - 1);
      assert Or(a, b) / 2 == Or(a / 2, b / 2);
    }
  }

  lemma {:induction false} OnesBits(n: nat, i: nat)
    ensures Bit(Ones(n), i) <==> i < n
    decreases n
  {
    if n == 0 {
      ZeroBits(i);
    } else if i > 0 {
      OnesBits(n - 1, i - 1);
      assert Ones(n) / 2 == Ones(n - 1);
    }
  }

  lemma {:induction false} ShiftBits(x: nat, k: nat, i: nat)
    ensures Bit(ShiftLeft(x, k), i) <==> i >= k && Bit(x, i - k)
    decreases k
  {
    if k > 0 && i > 0 {
      ShiftBits(x, k - 1, i - 1);
      assert ShiftLeft(x, k) / 2 == ShiftLeft(x, k - 1);
    }
  }

  lemma {:induction false} SomeBit(x: nat) returns (i: nat)
    requires x > 0
    ensures Bit(x, i)
  {
    if x % 2 == 1 {
      return 0;
    }
    var j := SomeBit(x / 2);
    return j + 1;
  }

  /** The mask of n subpages from base on. */
  function Mask(n: nat, base: nat): (r: nat) {
    ShiftLeft(Ones(n), base)
  }

  lemma MaskBits(n: nat, base: nat, i: nat)
    ensures Bit(Mask(n, base), i) <==> base <= i < base + n
  {
    ShiftBits(Ones(n), base, i);
    if i >= base {
      OnesBits(n, i - base);
    }
  }

  /** The test of the search: no subpage of the range is taken. */
  lemma MaskFree(word: nat, n: nat, base: nat)
    ensures And(Mask(n, base), word) == 0 <==> forall i :: base <= i < base + n ==> !Bit(word, i)
  {
    var both := And(Mask(n, base), word);
    if both == 0 {
      forall i | base <= i < base + n ensures !Bit(word, i) {
        AndBits(Mask(n, base), word, i);
        MaskBits(n, base, i);
        ZeroBits(i);
      }
    } else {
      var i := SomeBit(both);
      AndBits(Mask(n, base), word, i);
      MaskBits(n, base, i);
    }
  }

  lemma MaskTaken(word: nat, n: nat, base: nat, i: nat)
    ensures Bit(Or(word, Mask(n, base)), i) <==> Bit(word, i) || base <= i < base + n
  {
    OrBits(word, Mask(n, base), i);
    MaskBits(n, base, i);
  }

  /* Ranges. */

  datatype Range = Range(page: nat, base: nat, size: nat)

  predicate Covers(r: Range, page: nat, i: nat) {
    r.page == page && r.base <= i < r.base + r.size
  }

  ghost predicate Disjoint(a: Range, b: Range) {
    forall page, i :: !(Covers(a, page, i) && Covers(b, page, i))
  }

  function Start(r: Range): (offset: nat) {
    r.page * PAGE_SIZE + r.base * SUBPAGE_SIZE
  }

  /** Ranges that share no subpage share no byte, and each lies within its page. */
  lemma BytesDisjoint(a: Range, b: Range)
    requires 0 < a.size && a.base + a.size <= SUBPAGES_PER_PAGE && 0 < b.size && b.base + b.size <= SUBPAGES_PER_PAGE
    requires Disjoint(a, b)
    ensures Start(a) + a.size * SUBPAGE_SIZE <= Start(b) || Start(b) + b.size * SUBPAGE_SIZE <= Start(a)
    ensures Start(a) + a.size * SUBPAGE_SIZE <= (a.page + 1) * PAGE_SIZE
  {
    if a.page == b.page {
      var i := if a.base < b.base then b.base else a.base;
      assert !(Covers(a, a.page, i) && Covers(b, a.page, i));
    }
  }

  /** A run of n free subpages in a word. */
  ghost predicate FreeRun(word: nat, n: nat, base: nat) {
    base + n <= SUBPAGES_PER_PAGE && forall i :: base <= i < base + n ==> !Bit(word, i)
  }

  function Required(size: nat): (n: nat)
    ensures SUBPAGE_SIZE * n >= size && (n > 0 ==> SUBPAGE_SIZE * (n - 1) < size)
  {
    size / SUBPAGE_SIZE + (if size % SUBPAGE_SIZE != 0 then 1 else 0)
  }

  /** The value that an int8_t holds. */
  function Wrap8(x: int): (r: int)
    ensures -128 <= r < 128 && (r - x) % 256 == 0
  {
    (x + 128) % 256 - 128
  }

  /** With the ranges freed one after the other, the first free that drops the buffer is the last one
      exactly if there were at most 128 of them. */
  lemma ReleaseExact(live: nat)
    requires live > 0
    ensures Wrap8(0) <= 0
    ensures (forall left :: 0 < left < live ==> Wrap8(left) > 0) <==> live <= 128
  {
    if live > 128 {
      assert Wrap8(128) == -128;
    }
  }

  class Buffer {
    const numSubpages: nat
    /** lock_status: one word per page. */
    const lock: array<nat>
    /** references, an int8_t. */
    var references: int
    var released: bool
    /** Every range handed out so far. */
    ghost var ranges: seq<Range>
    /** Ranges handed out and not yet freed. */
    ghost var live: int

    /** Only whole pages are searched. */
    function Pages(): (n: nat)
      ensures n * PAGE_SIZE <= numSubpages * SUBPAGE_SIZE < (n + 1) * PAGE_SIZE
    {
      numSubpages * SUBPAGE_SIZE / PAGE_SIZE
    }

    ghost predicate Valid()
      reads this, lock
    {
      && Pages() <= lock.Length
      && references == Wrap8(live)
      && (forall k :: 0 <= k < |ranges| ==>
            ranges[k].page < Pages() && 0 < ranges[k].size && ranges[k].base + ranges[k].size <= SUBPAGES_PER_PAGE)
      && (forall j, k :: 0 <= j < k < |ranges| ==> Disjoint(ranges[j], ranges[k]))
      && (forall page, i :: 0 <= page < lock.Length && 0 <= i ==> (Bit(lock[page], i) <==> Taken(ranges, page, i)))
    }

    /** xom_alloc_subpages_internal: the sizes. */
    constructor (size: nat)
      ensures Valid() && fresh(lock) && ranges == [] && live == 0 && !released
      ensures numSubpages == Required(size)
    {
      numSubpages := Required(size);
      lock := new nat[(size + PAGE_SIZE - 1) / PAGE_SIZE](_ => 0);
      references, released, ranges, live := 0, false, [], 0;
      new;
      WholePages(size);
      hide Required;
      forall page, i | 0 <= page < lock.Length && 0 <= i ensures !Bit(lock[page], i) {
        ZeroBits(i);
      }
    }

    /** The search for a contiguous range: the first page that has one, and there the lowest. */
    method Search(n: nat) returns (found: bool, page: nat, base: nat)
      requires Pages() <= lock.Length && 0 < n <= MAX_SUBPAGES_PER_CMD
      ensures found <==> exists p: nat, b: nat :: p < Pages() && FreeRun(lock[p], n, b)
      ensures found ==> page < Pages() && FreeRun(lock[page], n, base)
      ensures found ==> forall p: nat, b: nat :: p < page || (p == page && b < base) ==> !FreeRun(lock[p], n, b)
    {
      page, base := 0, 0;
      while page < Pages()
        invariant page <= Pages()
        invariant forall p: nat, b: nat :: p < page ==> !FreeRun(lock[p], n, b)
      {
        base := 0;
        while base <= SUBPAGES_PER_PAGE - n
          invariant base <= SUBPAGES_PER_PAGE - n + 1
          invariant forall b: nat :: b < base ==> !FreeRun(lock[page], n, b)
        {
          MaskFree(lock[page], n, base);
          if And(Mask(n, base), lock[page]) == 0 {
            assert FreeRun(lock[page], n, base);
            return true, page, base;
          }
          assert !FreeRun(lock[page], n, base);
          base := base + 1;
        }
        page := page + 1;
      }
      return false, page, base;
    }

    /** xom_fill_and_lock_subpages_internal: first fit.  stored is the outcome of the write into the page;
        the result is an offset, or -1. */
    method Fill(size: nat, stored: bool) returns (r: int)
      requires Valid() && !released
      modifies this, lock
      ensures Valid() && released == old(released)
      ensures r != -1 <==>
        && size > 0 && Required(size) <= numSubpages && Required(size) <= MAX_SUBPAGES_PER_CMD && stored
        && exists p: nat, b: nat :: p < Pages() && FreeRun(old(lock[p]), Required(size), b)
      ensures r == -1 ==> ranges == old(ranges) && live == old(live) && lock[..] == old(lock[..])
      ensures r != -1 ==>
        && live == old(live) + 1 && |ranges| == |old(ranges)| + 1 && ranges[..|old(ranges)|] == old(ranges)
        && var range := ranges[|old(ranges)|];
           range.size == Required(size) && r == Start(range)
    {
      var n := Required(size);
      if size == 0 || n > numSubpages || n > MAX_SUBPAGES_PER_CMD {
        return -1;
      }
      hide Required, FreeRun;
      var found, page, base := Search(n);
      if !found || !stored {
        return -1;
      }
      assert FreeRun(old(lock[page]), n, base);
      Take(page, base, n);
      return page * PAGE_SIZE + base * SUBPAGE_SIZE;
    }

    /** The bookkeeping of write_into_subpages. */
    method Take(page: nat, base: nat, n: nat)
      requires Valid() && page < Pages() && n > 0 && FreeRun(lock[page], n, base)
      modifies this, lock
      ensures Valid() && released == old(released) && live == old(live) + 1
      ensures ranges == old(ranges) + [Range(page, base, n)]
    {
      ghost var was, word := ranges, lock[page];
      ghost var range := Range(page, base, n);
      lock[page] := Or(lock[page], Mask(n, base));
      references := Wrap8(references + 1);
      ranges, live := ranges + [range], live + 1;
      forall i | 0 <= i ensures Bit(lock[page], i) <==> Bit(word, i) || base <= i < base + n {
        MaskTaken(word, n, base, i);
      }
      TakenNext(was, range);
      forall k | 0 <= k < |was| ensures Disjoint(was[k], range) {
        forall p, i ensures !(Covers(was[k], p, i) && Covers(range, p, i)) {
          if Covers(was[k], p, i) {
            assert Taken(was, p, i);
          }
        }
      }
    }

    /** xom_free_subpages_internal: any address in the buffer counts as one reference. */
    method Free(offset: int) returns (r: int)
      requires Valid() && !released
      modifies this`references, this`released, this`live
      ensures Valid()
      ensures r == -1 <==> !(0 <= offset < numSubpages * SUBPAGE_SIZE)
      ensures r == -1 ==> live == old(live) && released == old(released)
      ensures r != -1 ==>
        && live == old(live) - 1
        && (released <==> r == 1) && (released <==> Wrap8(live) <= 0)
        && (1 <= old(live) <= 128 ==> (released <==> live == 0))
    {
      if offset < 0 || offset >= numSubpages * SUBPAGE_SIZE {
        return -1;
      }
      references := Wrap8(references - 1);
      live := live - 1;
      if references <= 0 {
        released := true;
        return 1;
      }
      return 0;
    }
  }

  /** The pages that can be used are the whole ones, and there is a word for each. */
  lemma WholePages(size: nat)
    ensures Required(size) * SUBPAGE_SIZE / PAGE_SIZE <= (size + PAGE_SIZE - 1) / PAGE_SIZE
  {
  }

  ghost predicate Taken(ranges: seq<Range>, page: nat, i: nat) {
    exists k :: 0 <= k < |ranges| && Covers(ranges[k], page, i)
  }

  lemma TakenNext(ranges: seq<Range>, range: Range)
    ensures forall page, i :: Taken(ranges + [range], page, i) <==> Taken(ranges, page, i) || Covers(range, page, i)
  {
    var all := ranges + [range];
    forall page: nat, i: nat ensures Taken(all, page, i) <==> Taken(ranges, page, i) || Covers(range, page, i) {
      if Taken(ranges, page, i) {
        var k :| 0 <= k < |ranges| && Covers(ranges[k], page, i);
        assert Covers(all[k], page, i);
      }
      if Covers(range, page, i) {
        assert Covers(all[|ranges|], page, i);
      }
    }
  }
}
