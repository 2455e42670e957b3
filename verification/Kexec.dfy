/**
 Frame exchange of the Mini-OS kexec loader: the guest's physical-to-machine table is permuted
 in place while `moved` remembers where the frame displaced from each boot slot went.

 `frames` is the table the domain started with (`pfn_to_mfn`); it never changes.
 */
module Kexec {

  type Frames = seq<nat>

  ghost predicate Injective(s: Frames) {
    forall i, j :: 0 <= i < |s| && 0 <= j < |s| && s[i] == s[j] ==> i == j
  }

  ghost predicate Distinct(s: seq<nat>, bound: nat) {
    && (forall i :: 0 <= i < |s| ==> s[i] < bound)
    && (forall i, j :: 0 <= i < j < |s| ==> s[i] != s[j])
  }

  /** Where a walk along the forwarding chain stops.  A result below |moved| means that the walk
      met an entry that does not lead upwards, where the C loop would spin for ever. */
  ghost function Chase(moved: seq<nat>, pfn: nat): (end: nat)
    decreases |moved| - pfn
  {
    if pfn >= |moved| || moved[pfn] <= pfn then pfn else Chase(moved, moved[pfn])
  }

  /** Appending a destination at or above the end of the chain diverts exactly the walks that used
      to stop there. */
  lemma {:induction false} ChaseExtend(moved: seq<nat>, q: nat, pfn: nat)
    requires q >= |moved|
    requires Chase(moved, pfn) >= |moved|
    ensures Chase(moved + [q], pfn)
         == if Chase(moved, pfn) == |moved| then q else Chase(moved, pfn)
    decreases |moved| - pfn
  {
    if pfn < |moved| {
      ChaseExtend(moved, q, moved[pfn]);
    }
  }

  /** The state between two iterations of the allocation loop: `pages` are the pfns handed out so
      far, one for each of the first |pages| slots. */
  ghost predicate Exchanged(frames: Frames, p2m: Frames, moved: seq<nat>, pages: seq<nat>) {
    && |p2m| == |frames| && |moved| == |pages| <= |frames|
    && Injective(p2m)
    && Distinct(pages, |frames|)
    && (forall j :: 0 <= j < |pages| ==> p2m[j] == frames[pages[j]])
    && (forall x :: 0 <= x < |frames| && x !in pages ==> Tracked(frames, p2m, moved, x))
  }

  /** The chain leads from a page that was not handed out to the slot that holds its frame now. */
  ghost predicate Tracked(frames: Frames, p2m: Frames, moved: seq<nat>, x: nat)
    requires x < |frames|
  {
    var q := Chase(moved, x);
    |moved| <= q < |p2m| && p2m[q] == frames[x]
  }

  function Swap(s: Frames, i: nat, j: nat): (r: Frames)
    requires i < |s| && j < |s|
    ensures |r| == |s| && multiset(r) == multiset(s)
    ensures Injective(s) ==> Injective(r)
    ensures r[i] == s[j] && r[j] == s[i]
    ensures forall k :: 0 <= k < |s| && k != i && k != j ==> r[k] == s[k]
  {
    s[i := s[j]][j := s[i]]
  }

  /** The two table writes of one allocation step, for whatever slot `q` the walk returned. */
  function Displace(p2m: Frames, i: nat, q: nat, newMfn: nat): (r: Frames)
    requires i < |p2m| && q < |p2m|
  {
    p2m[q := p2m[i]][i := newMfn]
  }

  lemma DisplaceSwaps(p2m: Frames, i: nat, q: nat)
    requires i < |p2m| && q < |p2m|
    ensures Displace(p2m, i, q, p2m[q]) == Swap(p2m, i, q)
  {
  }

  /** A step loses no frame exactly when the slot the walk ended at holds the new page's frame. */
  lemma DisplaceKeepsFrames(p2m: Frames, i: nat, q: nat, newMfn: nat)
    requires i < |p2m| && q < |p2m|
    ensures multiset(Displace(p2m, i, q, newMfn)) == multiset(p2m) <==> p2m[q] == newMfn
    ensures p2m[q] == newMfn ==> Displace(p2m, i, q, newMfn) == Swap(p2m, i, q)
  {
    DisplaceSwaps(p2m, i, q);
    hide Swap;
    var before, after := multiset(p2m), multiset(Displace(p2m, i, q, newMfn));
    assert p2m[q] in before;
    var mid := p2m[q := p2m[i]];
    assert multiset(mid) == before - multiset{p2m[q]} + multiset{p2m[i]};
    assert after == multiset(mid) - multiset{p2m[i]} + multiset{newMfn};
    Exchanging(before, p2m[i], p2m[q], newMfn);
  }

  /** Taking x out and putting it back in while y gives way to z changes nothing but y for z. */
  lemma Exchanging(before: multiset<nat>, x: nat, y: nat, z: nat)
    requires y in before
    ensures before - multiset{y} + multiset{x} - multiset{x} + multiset{z} == before <==> y == z
  {
    var after := before - multiset{y} + multiset{z};
    assert before - multiset{y} + multiset{x} - multiset{x} + multiset{z} == after;
    if y == z {
      assert after == before;
    } else {
      assert after[z] == before[z] + 1;
    }
  }

  /** One iteration of the allocation loop keeps the chain sound. */
  lemma StepKeepsExchanged(frames: Frames, p2m: Frames, moved: seq<nat>, pages: seq<nat>, x: nat)
    requires Injective(frames) && Exchanged(frames, p2m, moved, pages)
    requires x < |frames| && x !in pages && |pages| < |frames|
    ensures Tracked(frames, p2m, moved, x)
    ensures var q := Chase(moved, x);
      && Displace(p2m, |pages|, q, frames[x]) == Swap(p2m, |pages|, q)
      && Exchanged(frames, Displace(p2m, |pages|, q, frames[x]), moved + [q], pages + [x])
  {
    var i, q := |pages|, Chase(moved, x);
    assert Tracked(frames, p2m, moved, x);
    DisplaceKeepsFrames(p2m, i, q, frames[x]);
    var p2m', pages' := Displace(p2m, i, q, frames[x]), pages + [x];
    forall y | 0 <= y < |frames| && y !in pages'
      ensures Tracked(frames, p2m', moved + [q], y)
    {
      assert y !in pages && y != x;
      assert Tracked(frames, p2m, moved, y);
      ChaseExtend(moved, q, y);
    }
  }

  /** Walking the chain after an exchange goes wrong: the exchange moves frames without recording
      it in `moved`, so the next step can duplicate one frame and lose another. */
  lemma AllocateAfterExchangeLosesFrame()
    ensures exists frames: Frames, moved: seq<nat>, pages: seq<nat>, x: nat, a: nat, b: nat ::
      && Injective(frames) && Exchanged(frames, frames, moved, pages)
      && a < |frames| && b < |frames| && x < |frames| && x !in pages && |pages| < |frames|
      && Chase(moved, x) < |frames|
      && multiset(Displace(Swap(frames, a, b), |pages|, Chase(moved, x), frames[x])) != multiset(frames)
  {
    var frames: Frames := [10, 11, 12];
    var moved: seq<nat>, pages: seq<nat> := [], [];
    assert forall x :: 0 <= x < 3 ==> Tracked(frames, frames, moved, x);
    assert Exchanged(frames, frames, moved, pages);
    DisplaceKeepsFrames(Swap(frames, 1, 2), 0, Chase(moved, 1), frames[1]);
    assert Swap(frames, 1, 2)[1] == 12;
  }

  datatype Update = Update(mfn: nat, pfn: nat)

  /** The machine-to-physical updates for the first n slots: only those whose frame changed. */
  function Updates(frames: Frames, p2m: Frames, n: nat): (r: seq<Update>)
    requires n <= |frames| == |p2m|
  {
    if n == 0 then [] else
      Updates(frames, p2m, n - 1)
      + (if p2m[n - 1] != frames[n - 1] then [Update(p2m[n - 1], n - 1)] else [])
  }

  function Apply(m2p: map<nat, nat>, updates: seq<Update>): (r: map<nat, nat>) {
    if updates == [] then m2p else
      var last := updates[|updates| - 1];
      Apply(m2p, updates[..|updates| - 1])[last.mfn := last.pfn]
  }

  ghost predicate InverseOf(m2p: map<nat, nat>, p2m: Frames) {
    forall pfn :: 0 <= pfn < |p2m| ==> p2m[pfn] in m2p && m2p[p2m[pfn]] == pfn
  }

  lemma {:induction false} ApplyAppend(m2p: map<nat, nat>, updates: seq<Update>, u: Update)
    ensures Apply(m2p, updates + [u]) == Apply(m2p, updates)[u.mfn := u.pfn]
  {
    assert (updates + [u])[..|updates|] == updates;
  }

  /** After the first n slots' updates, the map answers n for exactly the frames of those slots;
      a frame that is in no changed slot keeps the answer it had. */
  lemma {:induction false} ApplyUpTo(m2p: map<nat, nat>, frames: Frames, p2m: Frames, n: nat)
    requires n <= |frames| == |p2m| && Injective(p2m) && InverseOf(m2p, frames)
    ensures var r := Apply(m2p, Updates(frames, p2m, n));
      && (forall k :: 0 <= k < n ==> p2m[k] in r && r[p2m[k]] == k)
      && (forall m :: m in m2p && (forall k :: 0 <= k < n ==> p2m[k] != m) ==> m in r && r[m] == m2p[m])
      && r.Keys == m2p.Keys + set k | 0 <= k < n :: p2m[k]
  {
    hide Updates, Apply, Injective;
    if n == 0 {
      ApplyNone(m2p, frames, p2m);
    } else {
      var r, f := Apply(m2p, Updates(frames, p2m, n - 1)), p2m[n - 1];
      ApplyUpTo(m2p, frames, p2m, n - 1);
      Elsewhere(p2m, n);
      ApplyNext(m2p, frames, p2m, n);
      assert r[f := n - 1].Keys == r.Keys + {f};
      assert (set k | 0 <= k < n :: p2m[k]) == (set k | 0 <= k < n - 1 :: p2m[k]) + {f};
    }
  }

  lemma ApplyNone(m2p: map<nat, nat>, frames: Frames, p2m: Frames)
    requires |frames| == |p2m|
    ensures Apply(m2p, Updates(frames, p2m, 0)) == m2p
  {
  }

  lemma Elsewhere(p2m: Frames, n: nat)
    requires 0 < n <= |p2m| && Injective(p2m)
    ensures forall k :: 0 <= k < n - 1 ==> p2m[k] != p2m[n - 1]
  {
  }

  /** One more slot sets the answer for its frame, whether an update is listed or not needed. */
  lemma ApplyNext(m2p: map<nat, nat>, frames: Frames, p2m: Frames, n: nat)
    requires 0 < n <= |frames| == |p2m| && InverseOf(m2p, frames)
    requires var r := Apply(m2p, Updates(frames, p2m, n - 1));
      p2m[n - 1] in m2p ==> p2m[n - 1] in r && r[p2m[n - 1]] == m2p[p2m[n - 1]]
    ensures Apply(m2p, Updates(frames, p2m, n)) == Apply(m2p, Updates(frames, p2m, n - 1))[p2m[n - 1] := n - 1]
  {
    hide Apply;
    var r := Apply(m2p, Updates(frames, p2m, n - 1));
    if p2m[n - 1] != frames[n - 1] {
      ApplyAppend(m2p, Updates(frames, p2m, n - 1), Update(p2m[n - 1], n - 1));
    } else {
      assert Updates(frames, p2m, n) == Updates(frames, p2m, n - 1);
      assert frames[n - 1] in m2p && m2p[frames[n - 1]] == n - 1;
    }
  }

  /** The short update list turns the original inverse map into the whole inverse of the new table
      and changes the answer for no frame that the domain does not own. */
  lemma UpdatesInvertTable(m2p: map<nat, nat>, frames: Frames, p2m: Frames)
    requires |p2m| == |frames| && Injective(frames) && multiset(p2m) == multiset(frames)
    requires InverseOf(m2p, frames)
    ensures var r := Apply(m2p, Updates(frames, p2m, |frames|));
      InverseOf(r, p2m) && r.Keys == m2p.Keys && (forall m :: m in m2p && m !in frames ==> r[m] == m2p[m])
  {
    PermutationInjective(frames, p2m);
    ApplyUpTo(m2p, frames, p2m, |frames|);
    forall k | 0 <= k < |p2m| ensures p2m[k] in frames { SameFrames(frames, p2m, p2m[k]); }
  }

  lemma SameFrames(a: Frames, b: Frames, m: nat)
    requires multiset(a) == multiset(b)
    ensures m in a <==> m in b
  {
    assert m in a <==> m in multiset(a);
    assert m in b <==> m in multiset(b);
  }

  /** A sequence is injective when every element counts once; so is every rearrangement of it. */
  lemma PermutationInjective(a: Frames, b: Frames)
    requires Injective(a) && multiset(a) == multiset(b)
    ensures Injective(b)
  {
    forall i, j | 0 <= i < |b| && 0 <= j < |b| && b[i] == b[j]
      ensures i == j
    {
      if i != j {
        CountTwo(b, i, j);
        CountOne(a, b[i]);
      }
    }
  }

  lemma CountTwo(s: Frames, i: nat, j: nat)
    requires i < |s| && j < |s| && i != j && s[i] == s[j]
    ensures multiset(s)[s[i]] >= 2
  {
    var lo, hi := if i < j then i else j, if i < j then j else i;
    assert s == s[..hi] + s[hi..];
    assert s[lo] in multiset(s[..hi]) by { assert s[..hi][lo] == s[lo]; }
    assert s[hi] in multiset(s[hi..]) by { assert s[hi..][0] == s[hi]; }
  }

  lemma {:induction false} CountOne(s: Frames, m: nat)
    requires Injective(s)
    ensures multiset(s)[m] <= 1
    decreases |s|
  {
    if s != [] {
      var t: Frames := s[..|s| - 1];
      assert s == t + [s[|s| - 1]];
      CountOne(t, m);
      if m == s[|s| - 1] {
        assert m !in t;
        assert multiset(t)[m] == 0;
      }
    }
  }

  /** The loader's tables. */
  class Loader {
    const frames: Frames
    const p2m: array<nat>
    var pagesMfns: seq<nat>
    var moved: seq<nat>
    var nrAllocated: nat
    ghost var pages: seq<nat>

    /** What every call keeps: no frame is lost, and each boot slot holds its page's frame. */
    ghost predicate Valid()
      reads this, p2m
    {
      && Injective(frames)
      && p2m.Length == |frames|
      && multiset(p2m[..]) == multiset(frames)
      && |pages| == |pagesMfns| == nrAllocated <= |frames|
      && Distinct(pages, |frames|)
      && (forall j :: 0 <= j < nrAllocated ==> pagesMfns[j] == frames[pages[j]])
    }

    /** What additionally holds until frames are exchanged behind the chain's back. */
    ghost predicate Building()
      reads this, p2m
    {
      Valid() && Exchanged(frames, p2m[..], moved, pages)
    }

    /** The table starts as a copy of the domain's own. */
    constructor (frames: Frames)
      requires Injective(frames)
      ensures Building() && this.frames == frames && p2m[..] == frames && fresh(p2m)
      ensures nrAllocated == 0
    {
      this.frames := frames;
      var table := new nat[|frames|];
      p2m := table;
      pagesMfns, moved, nrAllocated, pages := [], [], 0, [];
      new;
      for i := 0 to |frames|
        invariant table == p2m && fresh(p2m) && p2m.Length == |frames|
        invariant p2m[..i] == frames[..i]
        invariant this.frames == frames && nrAllocated == 0
        invariant pagesMfns == [] && moved == [] && pages == []
      {
        p2m[i] := frames[i];
      }
      assert p2m[..] == frames;
      assert forall x :: 0 <= x < |frames| ==> Tracked(frames, p2m[..], moved, x);
    }

    /** Puts a newly allocated page at each slot from `nrAllocated` up to newAllocated.  freshPages[k]
        is the pfn that the page allocator returns for slot nrAllocated + k. */
    method Allocate(newAllocated: nat, freshPages: seq<nat>)
      requires Building()
      requires nrAllocated <= newAllocated <= |frames|
      requires |freshPages| == newAllocated - nrAllocated
      requires Distinct(pages + freshPages, |frames|)
      modifies this, p2m
      ensures Building() && nrAllocated == newAllocated
      ensures pages == old(pages) + freshPages
      ensures forall i :: 0 <= i < nrAllocated ==> p2m[i] == pagesMfns[i] == frames[pages[i]]
      ensures old(pagesMfns) == pagesMfns[..old(nrAllocated)]
    {
      var start := nrAllocated;
      for i := nrAllocated to newAllocated
        invariant nrAllocated == start && p2m.Length == |frames|
        invariant |pages| == |pagesMfns| == i
        invariant pages == old(pages) + freshPages[..i - start]
        invariant Injective(frames) && multiset(p2m[..]) == multiset(frames)
        invariant Exchanged(frames, p2m[..], moved, pages)
        invariant forall j :: 0 <= j < i ==> pagesMfns[j] == frames[pages[j]]
        invariant old(pagesMfns) == pagesMfns[..start]
      {
        AllocateSlot(i, freshPages[i - start]) by {
          assert (old(pages) + freshPages)[i] == freshPages[i - start];
          assert pages == (old(pages) + freshPages)[..i];
        }
        assert freshPages[..i + 1 - start] == freshPages[..i - start] + [freshPages[i - start]];
      }
      assert freshPages[..newAllocated - start] == freshPages;
      nrAllocated := newAllocated;
    }

    /** The body of the allocation loop: walk the chain, then move the displaced frame. */
    method AllocateSlot(i: nat, page: nat)
      requires Injective(frames) && p2m.Length == |frames| && i < |frames|
      requires |pages| == |pagesMfns| == i && page < |frames| && page !in pages
      requires multiset(p2m[..]) == multiset(frames)
      requires Exchanged(frames, p2m[..], moved, pages)
      modifies this`pagesMfns, this`moved, this`pages, p2m
      ensures pages == old(pages) + [page] && pagesMfns == old(pagesMfns) + [frames[page]]
      ensures Exchanged(frames, p2m[..], moved, pages)
      ensures exists q :: i <= q < p2m.Length && old(p2m[q]) == frames[page]
                       && p2m[..] == Swap(old(p2m[..]), i, q)
      ensures multiset(p2m[..]) == multiset(frames)
    {
      var oldMfn := p2m[i];
      var newMfn := frames[page];
      pagesMfns := pagesMfns + [newMfn];
      StepKeepsExchanged(frames, p2m[..], moved, pages, page);
      var newPfn := page;
      while newPfn < i
        invariant Chase(moved, newPfn) == Chase(moved, page)
        decreases i - newPfn
      {
        newPfn := moved[newPfn];
      }
      ghost var before := p2m[..];
      assert newPfn == Chase(moved, page);
      moved := moved + [newPfn];
      p2m[newPfn] := oldMfn;
      p2m[i] := newMfn;
      pages := pages + [page];
      assert p2m[..] == Displace(before, i, newPfn, newMfn);
    }

    /** The slot that holds a frame. */
    method FindFrame(mfn: nat) returns (found: bool, pfn: nat)
      ensures found <==> mfn in p2m[..]
      ensures found ==> pfn < p2m.Length && p2m[pfn] == mfn
    {
      pfn := 0;
      while pfn < p2m.Length && p2m[pfn] != mfn
        invariant pfn <= p2m.Length
        invariant forall q :: 0 <= q < pfn ==> p2m[q] != mfn
      {
        pfn := pfn + 1;
      }
      found := pfn < p2m.Length;
    }

    /** Makes sourceMfn appear at targetPfn.  The search fails only for a frame that the domain
        does not own, which the C code rejects with an assertion. */
    method Exchange(targetPfn: nat, sourceMfn: nat) returns (found: bool)
      requires Valid() && targetPfn < |frames|
      modifies p2m
      ensures Valid()
      ensures found <==> sourceMfn in frames
      ensures !found ==> p2m[..] == old(p2m[..])
      ensures found ==> p2m[targetPfn] == sourceMfn
      ensures found ==> exists s :: 0 <= s < p2m.Length && old(p2m[..])[s] == sourceMfn
                                 && p2m[..] == Swap(old(p2m[..]), targetPfn, s)
    {
      SameFrames(frames, p2m[..], sourceMfn);
      var sourcePfn;
      found, sourcePfn := FindFrame(sourceMfn);
      if !found {
        return;
      }
      ghost var before := p2m[..];
      assert before[sourcePfn] == sourceMfn;
      var targetMfn := p2m[targetPfn];
      p2m[sourcePfn] := targetMfn;
      p2m[targetPfn] := sourceMfn;
      assert p2m[..] == Swap(before, targetPfn, sourcePfn);
    }

    /** Counts the changed slots, then fills a buffer of exactly that size. */
    method MachineToPhysicalUpdates() returns (updates: array<Update>)
      requires Valid()
      ensures fresh(updates)
      ensures updates[..] == Updates(frames, p2m[..], |frames|)
      ensures forall m2p :: InverseOf(m2p, frames) ==> InverseOf(Apply(m2p, updates[..]), p2m[..])
    {
      var n := 0;
      for pfn := 0 to p2m.Length
        invariant n == |Updates(frames, p2m[..], pfn)|
      {
        if p2m[pfn] != frames[pfn] {
          n := n + 1;
        }
      }
      updates := new Update[n](_ => Update(0, 0));
      var i := 0;
      for pfn := 0 to p2m.Length
        invariant i <= n == updates.Length && fresh(updates)
        invariant p2m[..] == old(p2m[..])
        invariant updates[..i] == Updates(frames, p2m[..], pfn)
      {
        UpdatesGrow(frames, p2m[..], pfn + 1);
        if p2m[pfn] != frames[pfn] {
          updates[i] := Update(p2m[pfn], pfn);
          i := i + 1;
        }
      }
      assert updates[..i] == updates[..];
      forall m2p | InverseOf(m2p, frames)
        ensures InverseOf(Apply(m2p, updates[..]), p2m[..])
      {
        UpdatesInvertTable(m2p, frames, p2m[..]);
      }
    }
  }

  lemma {:induction false} UpdatesGrow(frames: Frames, p2m: Frames, n: nat)
    requires n <= |frames| == |p2m|
    ensures |Updates(frames, p2m, n)| <= |Updates(frames, p2m, |frames|)|
    decreases |frames| - n
  {
    if n < |frames| {
      UpdatesGrow(frames, p2m, n + 1);
    }
  }
}
