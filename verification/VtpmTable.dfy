/**
 The vTPMs of a group.  They are kept in pages of 48, every page but the last one full; a vTPM's index
 is its position in the whole table, and deleting one moves the last into its place.
 */
module VtpmTable {
  import opened Wrappers
  import opened Bytes
  import opened DiskFormat
  import opened DiskLoad
  import opened Stored

  const FLAG_ADMIN: nat := 1
  const FLAG_OPEN: nat := 0x8000_0000
  const DATA_SIZE: nat := 64

  predicate IsOpen(v: Vtpm) {
    v.flags / FLAG_OPEN % 2 == 1
  }

  /** The open flag is one bit of the flags, and none of those that are stored: what is loaded is closed. */
  lemma LoadedClosed(vtpms: seq<Vtpm>, i: nat)
    requires i < |vtpms|
    ensures !IsOpen(Masked(vtpms)[i])
    ensures IsOpen(vtpms[i].(flags := vtpms[i].flags + FLAG_OPEN)) <==> !IsOpen(vtpms[i])
  {
    var q := vtpms[i].flags / FLAG_OPEN;
    assert (vtpms[i].flags + FLAG_OPEN) / FLAG_OPEN == q + 1;
  }

  /** Where the vTPM with the given index lies. */
  lemma Located(g: Group, i: nat)
    requires Paged(g) && i < g.nrVtpms
    ensures i / VTPMS_PER_SECTOR < |g.pages| && i % VTPMS_PER_SECTOR < |g.pages[i / VTPMS_PER_SECTOR].vtpms|
  {
    var k := i / VTPMS_PER_SECTOR;
    assert VTPMS_PER_SECTOR * k <= i < VTPMS_PER_SECTOR * (k + 1);
  }

  function At(g: Group, i: nat): (v: Vtpm)
    requires i / VTPMS_PER_SECTOR < |g.pages| && i % VTPMS_PER_SECTOR < |g.pages[i / VTPMS_PER_SECTOR].vtpms|
  {
    g.pages[i / VTPMS_PER_SECTOR].vtpms[i % VTPMS_PER_SECTOR]
  }

  /** The group's vTPMs in one list. */
  ghost function Table(g: Group): (r: seq<Vtpm>)
    requires Paged(g)
    ensures |r| == g.nrVtpms
    ensures forall i :: 0 <= i < |r| ==>
      && i / VTPMS_PER_SECTOR < |g.pages| && i % VTPMS_PER_SECTOR < |g.pages[i / VTPMS_PER_SECTOR].vtpms|
      && r[i] == At(g, i) && r[i].index == i
  {
    assert forall i: nat :: i < g.nrVtpms ==>
      i / VTPMS_PER_SECTOR < |g.pages| && i % VTPMS_PER_SECTOR < |g.pages[i / VTPMS_PER_SECTOR].vtpms| by
    {
      forall i: nat | i < g.nrVtpms
        ensures i / VTPMS_PER_SECTOR < |g.pages| && i % VTPMS_PER_SECTOR < |g.pages[i / VTPMS_PER_SECTOR].vtpms|
      {
        Located(g, i);
      }
    }
    seq(g.nrVtpms, i requires 0 <= i < g.nrVtpms => At(g, i))
  }

  /** Nothing about the group changed but its pages, and those that changed are dirty. */
  ghost predicate Edited(g: Group, g': Group) {
    && g' == g.(pages := g'.pages, nrVtpms := g'.nrVtpms)
    && Paged(g')
    && forall k :: 0 <= k < |g'.pages| && g'.pages[k].loc != 0 ==> k < |g.pages| && g'.pages[k] == g.pages[k]
  }

  /** create_vtpm: a zeroed vTPM at the end of the table.  The page it goes to is not yet marked dirty.
      ok is false where the C code aborts. */
  method Create(g: Group, uuid: Blob) returns (ok: bool, g': Group)
    ensures Paged(g) ==> ok
    ensures ok && Paged(g) ==>
      && g' == g.(pages := g'.pages, nrVtpms := g.nrVtpms + 1) && Paged(g')
      && Table(g') == Table(g) + [Vtpm(uuid, Zeros(DATA_SIZE), 0, g.nrVtpms)]
      && (forall k :: 0 <= k < |g'.pages| && k != g.nrVtpms / VTPMS_PER_SECTOR ==>
          k < |g.pages| && g'.pages[k] == g.pages[k])
  {
    var pg, vt := g.nrVtpms / VTPMS_PER_SECTOR, g.nrVtpms % VTPMS_PER_SECTOR;
    var pages := g.pages;
    if pg >= |pages| {
      if pg != |pages| {
        return false, g;
      }
      pages := pages + [EMPTY_PAGE];
    }
    if |pages[pg].vtpms| != vt {
      if Paged(g) { NextFits(g); }
      return false, g;
    }
    var v := Vtpm(uuid, Zeros(DATA_SIZE), 0, g.nrVtpms);
    pages := pages[pg := pages[pg].(vtpms := pages[pg].vtpms + [v])];
    g' := g.(pages := pages, nrVtpms := g.nrVtpms + 1);
    if Paged(g) { CreatedPaged(g, v, g'); }
    return true, g';
  }

  /** The end of the table is where create_vtpm expects it. */
  lemma NextFits(g: Group)
    requires Paged(g)
    ensures var pg, vt := g.nrVtpms / VTPMS_PER_SECTOR, g.nrVtpms % VTPMS_PER_SECTOR;
      && pg <= |g.pages| <= pg + 1
      && (pg == |g.pages| ==> vt == 0)
      && (pg < |g.pages| ==> |g.pages[pg].vtpms| == vt)
  {
  }

  lemma CreatedPaged(g: Group, v: Vtpm, g': Group)
    requires Paged(g) && v.index == g.nrVtpms && g'.nrVtpms == g.nrVtpms + 1
    requires var pg := g.nrVtpms / VTPMS_PER_SECTOR;
      var pages := if pg == |g.pages| then g.pages + [EMPTY_PAGE] else g.pages;
      pg < |pages| && g'.pages == pages[pg := pages[pg].(vtpms := pages[pg].vtpms + [v])]
    ensures Paged(g') && Table(g') == Table(g) + [v]
  {
    NextFits(g);
    var pg := g.nrVtpms / VTPMS_PER_SECTOR;
    forall k | 0 <= k < |g'.pages|
      ensures VTPMS_PER_SECTOR * k <= g'.nrVtpms
      ensures |g'.pages[k].vtpms| == PageSize(g'.nrVtpms, VTPMS_PER_SECTOR * k)
      ensures PageOk(g'.pages[k], VTPMS_PER_SECTOR * k)
    {
    }
    forall i | 0 <= i < g'.nrVtpms ensures Table(g')[i] == (Table(g) + [v])[i] {
      if i < g.nrVtpms { Located(g, i); }
    }
  }

  /** The table without its i-th entry: the last one takes its place. */
  ghost function Without(table: seq<Vtpm>, i: nat): (r: seq<Vtpm>)
    requires i < |table|
  {
    table[i := table[|table| - 1].(index := i)][..|table| - 1]
  }

  /** What a vTPM is, apart from where it is kept. */
  ghost function Identities(table: seq<Vtpm>): (r: seq<Vtpm>)
    ensures |r| == |table|
  {
    seq(|table|, j requires 0 <= j < |table| => table[j].(index := 0))
  }

  /** Deleting loses the deleted vTPM and no other. */
  lemma WithoutConserves(table: seq<Vtpm>, i: nat)
    requires i < |table|
    ensures multiset(Identities(Without(table, i))) + multiset{table[i].(index := 0)} == multiset(Identities(table))
  {
    var n := |table| - 1;
    var all, left := Identities(table), Identities(Without(table, i));
    assert all == all[..n] + [all[n]];
    if i == n {
      assert left == all[..n];
    } else {
      assert left == all[..n][i := all[n]];
    }
  }

  /** delete_vtpm: refused for a vTPM that is open. */
  method Delete(g: Group, i: nat) returns (refused: bool, g': Group)
    requires Paged(g) && i < g.nrVtpms
    ensures refused <==> IsOpen(Table(g)[i])
    ensures refused ==> g' == g
    ensures !refused ==>
      && Edited(g, g') && g'.nrVtpms == g.nrVtpms - 1
      && Table(g') == Without(Table(g), i)
  {
    Located(g, i);
    Located(g, g.nrVtpms - 1);
    LastVtpm(g);
    var pg, vt := i / VTPMS_PER_SECTOR, i % VTPMS_PER_SECTOR;
    var lastPg := |g.pages| - 1;
    var lastVt := |g.pages[lastPg].vtpms| - 1;
    if IsOpen(g.pages[pg].vtpms[vt]) {
      return true, g;
    }
    var last := g.pages[lastPg].vtpms[lastVt].(index := i);
    var pages := g.pages[pg := g.pages[pg].(vtpms := g.pages[pg].vtpms[vt := last], loc := 0)];
    pages := pages[lastPg := pages[lastPg].(vtpms := pages[lastPg].vtpms[..lastVt], loc := 0)];
    if lastVt == 0 {
      pages := pages[..lastPg];
    }
    g' := g.(pages := pages, nrVtpms := g.nrVtpms - 1);
    DeletedPaged(g, i, last, g');
    return false, g';
  }

  lemma LastVtpm(g: Group)
    requires Paged(g) && g.nrVtpms > 0
    ensures |g.pages| > 0 && |g.pages[|g.pages| - 1].vtpms| > 0
    ensures (g.nrVtpms - 1) / VTPMS_PER_SECTOR == |g.pages| - 1
    ensures (g.nrVtpms - 1) % VTPMS_PER_SECTOR == |g.pages[|g.pages| - 1].vtpms| - 1
  {
  }

  ghost function Cut(pages: seq<Page>, i: nat, last: Vtpm): (r: seq<Page>)
    requires i / VTPMS_PER_SECTOR < |pages| && i % VTPMS_PER_SECTOR < |pages[i / VTPMS_PER_SECTOR].vtpms|
    requires |pages[|pages| - 1].vtpms| > 0
  {
    var pg, vt, n := i / VTPMS_PER_SECTOR, i % VTPMS_PER_SECTOR, |pages| - 1;
    var moved := pages[pg := pages[pg].(vtpms := pages[pg].vtpms[vt := last], loc := 0)];
    var cut := moved[n := moved[n].(vtpms := moved[n].vtpms[..|moved[n].vtpms| - 1], loc := 0)];
    if |pages[n].vtpms| == 1 then cut[..n] else cut
  }

  lemma DeletedPaged(g: Group, i: nat, last: Vtpm, g': Group)
    requires Paged(g) && i < g.nrVtpms
    requires i / VTPMS_PER_SECTOR < |g.pages| && i % VTPMS_PER_SECTOR < |g.pages[i / VTPMS_PER_SECTOR].vtpms|
    requires |g.pages[|g.pages| - 1].vtpms| > 0
    requires last == Table(g)[g.nrVtpms - 1].(index := i)
    requires g' == g.(pages := Cut(g.pages, i, last), nrVtpms := g.nrVtpms - 1)
    ensures Edited(g, g') && Table(g') == Without(Table(g), i)
  {
    CutPaged(g, i, last, g');
    hide PageOk;
    hide Paged, Cut;
    forall j | 0 <= j < g'.nrVtpms ensures Table(g')[j] == Without(Table(g), i)[j] {
      DeletedAt(g, i, last, g', j);
    }
  }

  lemma DeletedAt(g: Group, i: nat, last: Vtpm, g': Group, j: nat)
    requires Paged(g) && Paged(g') && i < g.nrVtpms && j < g'.nrVtpms
    requires i / VTPMS_PER_SECTOR < |g.pages| && i % VTPMS_PER_SECTOR < |g.pages[i / VTPMS_PER_SECTOR].vtpms|
    requires |g.pages[|g.pages| - 1].vtpms| > 0
    requires g' == g.(pages := Cut(g.pages, i, last), nrVtpms := g.nrVtpms - 1)
    ensures Table(g')[j] == if j == i then last else Table(g)[j]
  {
    Located(g', j);
    Located(g, j);
    hide Paged, Cut;
    CutAt(g.pages, i, last, j / VTPMS_PER_SECTOR, j % VTPMS_PER_SECTOR);
  }

  lemma CutAt(pages: seq<Page>, i: nat, last: Vtpm, p: nat, k: nat)
    requires i / VTPMS_PER_SECTOR < |pages| && i % VTPMS_PER_SECTOR < |pages[i / VTPMS_PER_SECTOR].vtpms|
    requires |pages[|pages| - 1].vtpms| > 0
    requires p < |Cut(pages, i, last)| && k < |Cut(pages, i, last)[p].vtpms|
    ensures p < |pages| && k < |pages[p].vtpms|
    ensures Cut(pages, i, last)[p].vtpms[k]
         == if p == i / VTPMS_PER_SECTOR && k == i % VTPMS_PER_SECTOR then last else pages[p].vtpms[k]
  {
  }

  lemma CutPaged(g: Group, i: nat, last: Vtpm, g': Group)
    requires Paged(g) && i < g.nrVtpms && last.index == i
    requires i / VTPMS_PER_SECTOR < |g.pages| && i % VTPMS_PER_SECTOR < |g.pages[i / VTPMS_PER_SECTOR].vtpms|
    requires |g.pages[|g.pages| - 1].vtpms| > 0
    requires g' == g.(pages := Cut(g.pages, i, last), nrVtpms := g.nrVtpms - 1)
    ensures Edited(g, g')
  {
    LastVtpm(g);
    forall k | 0 <= k < |g'.pages|
      ensures VTPMS_PER_SECTOR * k <= g'.nrVtpms
      ensures |g'.pages[k].vtpms| == PageSize(g'.nrVtpms, VTPMS_PER_SECTOR * k)
      ensures PageOk(g'.pages[k], VTPMS_PER_SECTOR * k)
      ensures g'.pages[k].loc != 0 ==> g'.pages[k] == g.pages[k]
    {
      assert k < |g.pages|;
    }
  }

  /** find_vtpm: the first vTPM with the UUID in the first open group that has one. */
  method Find(groups: seq<GroupHdr>, uuid: Blob) returns (found: bool, gi: nat, i: nat)
    requires forall x :: 0 <= x < |groups| && groups[x].v.Some? ==> Paged(groups[x].v.value)
    ensures found ==>
      && gi < |groups| && groups[gi].v.Some? && i < groups[gi].v.value.nrVtpms
      && Table(groups[gi].v.value)[i].uuid == uuid
      && (forall j :: 0 <= j < i ==> Table(groups[gi].v.value)[j].uuid != uuid)
    ensures found || gi == |groups|
    ensures forall x :: 0 <= x < gi && groups[x].v.Some? ==> Lacks(groups[x].v.value, uuid)
  {
    found, i, gi := false, 0, 0;
    while gi < |groups|
      invariant gi <= |groups|
      invariant forall x :: 0 <= x < gi && groups[x].v.Some? ==> Lacks(groups[x].v.value, uuid)
    {
      if groups[gi].v.Some? {
        found, i := FindIn(groups[gi].v.value, uuid);
        if found {
          return;
        }
      }
      gi := gi + 1;
    }
  }

  ghost predicate Lacks(g: Group, uuid: Blob)
    requires Paged(g)
  {
    forall j :: 0 <= j < g.nrVtpms ==> Table(g)[j].uuid != uuid
  }

  method FindIn(g: Group, uuid: Blob) returns (found: bool, i: nat)
    requires Paged(g)
    ensures found ==>
      i < g.nrVtpms && Table(g)[i].uuid == uuid && forall j :: 0 <= j < i ==> Table(g)[j].uuid != uuid
    ensures !found ==> Lacks(g, uuid)
  {
    i := 0;
    for p := 0 to |g.pages|
      invariant i == if p < |g.pages| then VTPMS_PER_SECTOR * p else g.nrVtpms
      invariant forall j :: 0 <= j < i ==> Table(g)[j].uuid != uuid
    {
      for k := 0 to |g.pages[p].vtpms|
        invariant i == VTPMS_PER_SECTOR * p + k <= g.nrVtpms
        invariant forall j :: 0 <= j < i ==> Table(g)[j].uuid != uuid
      {
        assert i / VTPMS_PER_SECTOR == p && i % VTPMS_PER_SECTOR == k;
        if g.pages[p].vtpms[k].uuid == uuid {
          return true, i;
        }
        i := i + 1;
      }
    }
    return false, i;
  }
}
