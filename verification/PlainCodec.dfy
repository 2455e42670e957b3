/**
 A codec without encryption, whose hash is the contents themselves.  It shows that what is assumed of a
 codec can be had: it is faithful, and nothing collides.
 */
module PlainCodec {
  import opened Wrappers
  import opened DiskFormat
  import opened DiskLoad

  /* Numbers, in unary. */

  function PutNat(n: nat): (r: Blob) {
    if n == 0 then [0] else [1] + PutNat(n - 1)
  }

  /** A number and the rest of the input. */
  function GetNat(s: Blob): (r: Option<(nat, Blob)>)
    ensures r.Some? ==> |r.value.1| < |s|
  {
    if s == [] then None
    else if s[0] == 0 then Some((0, s[1..]))
    else
      var tail := GetNat(s[1..]);
      if tail.None? then None else Some((tail.value.0 + 1, tail.value.1))
  }

  lemma {:induction false} NatRoundTrip(n: nat, rest: Blob)
    ensures GetNat(PutNat(n) + rest) == Some((n, rest))
  {
    if n == 0 {
      assert ([0] + rest)[1..] == rest;
    } else {
      NatRoundTrip(n - 1, rest);
      assert ([1] + PutNat(n - 1) + rest)[1..] == PutNat(n - 1) + rest;
    }
  }

  function NatOf(b: Blob): (n: nat) {
    var r := GetNat(b);
    if r.None? then 0 else r.value.0
  }

  lemma NatOfPut(n: nat)
    ensures NatOf(PutNat(n)) == n
  {
    NatRoundTrip(n, []);
    assert PutNat(n) + [] == PutNat(n);
  }

  function PutNats(xs: seq<nat>): (r: seq<Blob>)
    ensures |r| == |xs|
  {
    seq(|xs|, i requires 0 <= i < |xs| => PutNat(xs[i]))
  }

  function NatsOf(bs: seq<Blob>): (r: seq<nat>)
    ensures |r| == |bs|
  {
    seq(|bs|, i requires 0 <= i < |bs| => NatOf(bs[i]))
  }

  lemma NatsRoundTrip(xs: seq<nat>)
    ensures NatsOf(PutNats(xs)) == xs
  {
    forall i | 0 <= i < |xs| ensures NatsOf(PutNats(xs))[i] == xs[i] {
      NatOfPut(xs[i]);
    }
  }

  /* Lists of fields. */

  function Pack(fields: seq<Blob>): (r: Blob) {
    if fields == [] then [] else PutNat(|fields[0]|) + fields[0] + Pack(fields[1..])
  }

  function Unpack(s: Blob): (r: seq<Blob>)
    decreases |s|
  {
    var n := GetNat(s);
    if n.None? || n.value.0 > |n.value.1| then []
    else [n.value.1[..n.value.0]] + Unpack(n.value.1[n.value.0..])
  }

  lemma {:induction false} PackRoundTrip(fields: seq<Blob>)
    ensures Unpack(Pack(fields)) == fields
    decreases |fields|
  {
    hide GetNat, PutNat, Unpack;
    if fields == [] {
      UnpackNone();
    } else {
      var b, tail := fields[0], Pack(fields[1..]);
      PackRoundTrip(fields[1..]);
      NatRoundTrip(|b|, b + tail);
      assert Pack(fields) == PutNat(|b|) + (b + tail);
      UnpackFirst(Pack(fields), b, tail);
    }
  }

  lemma UnpackNone()
    ensures Unpack([]) == [] && Pack([]) == []
  {
  }

  lemma UnpackFirst(s: Blob, b: Blob, tail: Blob)
    requires GetNat(s) == Some((|b|, b + tail))
    ensures Unpack(s) == [b] + Unpack(tail)
  {
    hide GetNat;
    assert (b + tail)[..|b|] == b && (b + tail)[|b|..] == tail;
  }

  /* The sectors. */

  function PageFields(p: PageSector): (r: seq<Blob>) {
    [p.body] + seq(VTPMS_PER_SECTOR, i requires 0 <= i < VTPMS_PER_SECTOR => p.headers[i].uuid)
    + seq(VTPMS_PER_SECTOR, i requires 0 <= i < VTPMS_PER_SECTOR => PutNat(p.headers[i].flags))
  }

  function PageOf(f: seq<Blob>): (r: Option<PageSector>) {
    if |f| != 1 + 2 * VTPMS_PER_SECTOR then None
    else
      var headers := seq(VTPMS_PER_SECTOR, i requires 0 <= i < VTPMS_PER_SECTOR =>
        VtpmHeader(f[1 + i], NatOf(f[1 + VTPMS_PER_SECTOR + i])));
      var page: PageSector := PageData(headers, f[0]);
      Some(page)
  }

  lemma PageRoundTrip(p: PageSector)
    ensures PageOf(PageFields(p)) == Some(p)
  {
    hide PutNat, NatOf;
    var f := PageFields(p);
    forall i | 0 <= i < VTPMS_PER_SECTOR
      ensures f[1 + i] == p.headers[i].uuid && NatOf(f[1 + VTPMS_PER_SECTOR + i]) == p.headers[i].flags
    {
      NatOfPut(p.headers[i].flags);
    }
    assert PageOf(f).value.headers == p.headers;
  }

  function ItreeFields(t: ItreeSector): (r: seq<Blob>) {
    PutNats(t.locs) + t.hashes
  }

  function ItreeOf(f: seq<Blob>): (r: Option<ItreeSector>) {
    if |f| != 2 * ENTRIES_PER_ITREE then None
    else Some(ItreeData(NatsOf(f[..ENTRIES_PER_ITREE]), f[ENTRIES_PER_ITREE..]))
  }

  lemma ItreeRoundTrip(t: ItreeSector)
    ensures ItreeOf(ItreeFields(t)) == Some(t)
  {
    hide PutNats, NatsOf;
    NatsRoundTrip(t.locs);
    assert ItreeFields(t)[..ENTRIES_PER_ITREE] == PutNats(t.locs);
  }

  function AreaFields(a: GroupArea, mac: Mac): (r: seq<Blob>) {
    [a.id, PutNat(a.details.sequence), if a.details.rollback then [1] else [], a.details.other, a.boot,
     PutNat(a.nrVtpms), mac]
    + a.hashes
  }

  function AreaOf(f: seq<Blob>): (r: (GroupArea, Mac)) {
    if |f| < 7 then (GroupArea([], Details(0, false, []), [], 0, []), [])
    else (GroupArea(f[0], Details(NatOf(f[1]), f[2] != [], f[3]), f[4], NatOf(f[5]), f[7..]), f[6])
  }

  lemma AreaRoundTrip(a: GroupArea, mac: Mac)
    ensures AreaOf(AreaFields(a, mac)) == (a, mac)
  {
    hide PutNat, NatOf;
    NatOfPut(a.details.sequence);
    NatOfPut(a.nrVtpms);
    assert AreaFields(a, mac)[7..] == a.hashes;
  }

  function GroupFields(g: GroupSector): (r: seq<Blob>) {
    PutNats(g.locs) + AreaFields(g.area, g.mac)
  }

  function GroupOf(f: seq<Blob>): (r: Option<GroupSector>) {
    if |f| != 2 * ENTRIES_PER_GROUP + 7 then None
    else
      var area := AreaOf(f[ENTRIES_PER_GROUP..]);
      assert |area.0.hashes| == ENTRIES_PER_GROUP;
      Some(GroupData(area.0, area.1, NatsOf(f[..ENTRIES_PER_GROUP])))
  }

  lemma GroupRoundTrip(g: GroupSector)
    ensures GroupOf(GroupFields(g)) == Some(g)
  {
    hide PutNats, NatsOf, PutNat, NatOf;
    NatsRoundTrip(g.locs);
    AreaRoundTrip(g.area, g.mac);
    var f := GroupFields(g);
    assert f[..ENTRIES_PER_GROUP] == PutNats(g.locs) && f[ENTRIES_PER_GROUP..] == AreaFields(g.area, g.mac);
  }

  function Ids(macs: seq<MacEntry>): (r: seq<nat>)
    ensures |r| == |macs|
  {
    seq(|macs|, i requires 0 <= i < |macs| => macs[i].id)
  }

  function Macs(macs: seq<MacEntry>): (r: seq<Blob>)
    ensures |r| == |macs|
  {
    seq(|macs|, i requires 0 <= i < |macs| => macs[i].mac)
  }

  function Entries(ids: seq<nat>, macs: seq<Blob>): (r: seq<MacEntry>)
    requires |ids| == |macs|
    ensures |r| == |ids|
  {
    seq(|ids|, i requires 0 <= i < |ids| => MacEntry(ids[i], macs[i]))
  }

  function RootFields(r: RootSector): (f: seq<Blob>) {
    PutNats([r.area.sequence, r.area.counter, r.area.nrGroups, r.nrMacs] + r.locs + Ids(r.macs)) + r.area.hashes
      + Macs(r.macs)
  }

  function RootOf(f: seq<Blob>): (r: Option<RootSector>) {
    if |f| != 4 + 2 * ENTRIES_PER_ROOT + 2 * RB_MACS_PER_ROOT then None
    else
      var n := 4 + ENTRIES_PER_ROOT + RB_MACS_PER_ROOT;
      var ns := NatsOf(f[..n]);
      Some(RootData(RootArea(ns[0], ns[1], ns[2], f[n..n + ENTRIES_PER_ROOT]), ns[4..4 + ENTRIES_PER_ROOT], ns[3],
                    Entries(ns[4 + ENTRIES_PER_ROOT..], f[n + ENTRIES_PER_ROOT..])))
  }

  lemma RootRoundTrip(r: RootSector)
    ensures RootOf(RootFields(r)) == Some(r)
  {
    hide PutNats, NatsOf;
    var head := [r.area.sequence, r.area.counter, r.area.nrGroups, r.nrMacs];
    var ns := head + r.locs + Ids(r.macs);
    NatsRoundTrip(ns);
    var f := RootFields(r);
    var n := |ns|;
    assert f[..n] == PutNats(ns);
    assert f[n..n + ENTRIES_PER_ROOT] == r.area.hashes && f[n + ENTRIES_PER_ROOT..] == Macs(r.macs);
    assert ns[4..4 + ENTRIES_PER_ROOT] == r.locs && ns[4 + ENTRIES_PER_ROOT..] == Ids(r.macs);
    assert Entries(Ids(r.macs), Macs(r.macs)) == r.macs;
  }

  /* The codec. */

  function Sized48(bs: seq<Blob>): (r: seq<Blob>)
    ensures |r| == VTPMS_PER_SECTOR && (|bs| == VTPMS_PER_SECTOR ==> r == bs)
  {
    if |bs| == VTPMS_PER_SECTOR then bs else seq(VTPMS_PER_SECTOR, _ => [])
  }

  function Plain(): (c: Codec) {
    Codec(
      (k: Key, r: Blob, x: PageSector) => Pack(PageFields(x)), (k: Key, b: Blob) => PageOf(Unpack(b)),
      (k: Key, r: Blob, x: ItreeSector) => Pack(ItreeFields(x)), (k: Key, b: Blob) => ItreeOf(Unpack(b)),
      (k: Key, r: Blob, x: GroupSector) => Pack(GroupFields(x)), (k: Key, b: Blob) => GroupOf(Unpack(b)),
      (k: Key, r: Blob, x: RootSector) => Pack(RootFields(x)), (k: Key, b: Blob) => RootOf(Unpack(b)),
      (e: seq<Blob>) => Pack(e), (b: Blob) => Some(Unpack(b)),
      (k: GroupKeys, n: nat, r: Blob) => k.group + PutNat(n) + r,
      (k: Key, r: Blob, x: seq<Blob>) => Pack(x), (k: Key, b: Blob) => Sized48(Unpack(b)),
      (x: PageSector) => Pack(PageFields(x)), (x: seq<Digest>) => Pack(x),
      (a: GroupArea, m: Mac) => Pack(AreaFields(a, m)),
      (k: Key, a: GroupArea) => k + Pack(AreaFields(a, [])), (k: Key, a: RootArea) => k + Pack(a.hashes))
  }

  /** What is assumed of a codec can be had, all at once. */
  lemma PlainIsFaithful(key: Key, blobs: set<Blob>)
    ensures Faithful(Plain()) && Sized(Plain()) && NoCollision(Plain(), key, blobs)
  {
    hide Pack, Unpack, PageFields, PageOf, ItreeFields, ItreeOf, GroupFields, GroupOf, RootFields, RootOf, AreaFields,
         AreaOf;
    forall x: PageSector ensures PageOf(Unpack(Pack(PageFields(x)))) == Some(x) {
      PackRoundTrip(PageFields(x));
      PageRoundTrip(x);
    }
    forall x: ItreeSector ensures ItreeOf(Unpack(Pack(ItreeFields(x)))) == Some(x) {
      PackRoundTrip(ItreeFields(x));
      ItreeRoundTrip(x);
    }
    forall x: GroupSector ensures GroupOf(Unpack(Pack(GroupFields(x)))) == Some(x) {
      PackRoundTrip(GroupFields(x));
      GroupRoundTrip(x);
    }
    forall x: RootSector ensures RootOf(Unpack(Pack(RootFields(x)))) == Some(x) {
      PackRoundTrip(RootFields(x));
      RootRoundTrip(x);
    }
    forall x: seq<Blob> ensures Unpack(Pack(x)) == x {
      PackRoundTrip(x);
    }
    forall a: GroupArea, m: Mac ensures AreaOf(Unpack(Pack(AreaFields(a, m)))) == (a, m) {
      PackRoundTrip(AreaFields(a, m));
      AreaRoundTrip(a, m);
    }
  }
}
