/**
 A client's connection: the vTPM that it has cached, the commands that go through it, and what is served over a
 whole connection.
 */
module Clients {
  import opened Wrappers
  import opened DiskFormat
  import opened DiskIo
  import opened Stored
  import opened Sync
  import opened VtpmTable
  import opened Commands

  /* Lookups and what they lead to. */

  /** What a search for the client's UUID finds: no vTPM, one that is open already, or one that is not. */
  datatype Sight = Unknown | InUse | Closed

  /** A command that gets as far as the lookup.  peer says whether the client's context is one of the group's
      kernels, and is None if the context cannot be read; creates, whether an unknown UUID gets a vTPM. */
  datatype Attempt = Attempt(sight: Sight, peer: Option<bool>, creates: bool)

  /** The client may have the vTPM: its kernel is one of the group's, or the vTPM is made for it. */
  predicate Granted(t: Attempt) {
    (t.sight.Closed? && t.peer == Some(true)) || (t.sight.Unknown? && t.creates)
  }

  /** The lookup finds or makes a vTPM that nobody has open, whatever the peer. */
  predicate Touches(t: Attempt) {
    t.sight.Closed? || (t.sight.Unknown? && t.creates)
  }

  /** The reply, and whether the connection has a vTPM cached afterwards.  As the code is written a refused
      client keeps the vTPM that it was refused; `fixed` drops it. */
  function Verdict(fixed: bool, cached: bool, t: Attempt): (r: (Reply, bool))
    ensures r.0 == Success <==> cached || Granted(t)
    ensures r.1 <==> cached || (if fixed then Granted(t) else Touches(t))
  {
    if cached then (Success, true)
    else match t.sight
      case Unknown => if t.creates then (Success, true) else (BadParameter, false)
      case InUse => (Disabled, false)
      case Closed =>
        if t.peer == Some(true) then (Success, true)
        else (if t.peer.None? then Fail else Disabled, !fixed)
  }

  /** Whether a vTPM is cached after the attempts of a connection. */
  function Holds(fixed: bool, s: seq<Attempt>): (r: bool) {
    s != [] && Verdict(fixed, Holds(fixed, s[..|s| - 1]), s[|s| - 1]).1
  }

  function ReplyAt(fixed: bool, s: seq<Attempt>, k: nat): (r: Reply)
    requires k < |s|
  {
    Verdict(fixed, Holds(fixed, s[..k]), s[k]).0
  }

  /** What fills the cache. */
  lemma {:induction false} HoldsExact(fixed: bool, s: seq<Attempt>)
    ensures Holds(fixed, s) <==> exists j :: 0 <= j < |s| && (if fixed then Granted(s[j]) else Touches(s[j]))
  {
    if s != [] {
      var n := |s| - 1;
      HoldsExact(fixed, s[..n]);
      assert forall j :: 0 <= j < n ==> s[..n][j] == s[j];
    }
  }

  /** Exactly which commands are served: those that are granted themselves, and those after one that was
      granted or, as the code is written, after one that merely found the vTPM. */
  lemma ServedExact(fixed: bool, s: seq<Attempt>, k: nat)
    requires k < |s|
    ensures ReplyAt(fixed, s, k) == Success <==>
      Granted(s[k]) || exists j :: 0 <= j < k && (if fixed then Granted(s[j]) else Touches(s[j]))
  {
    hide Granted, Touches, Verdict;
    HoldsExact(fixed, s[..k]);
    assert forall j :: 0 <= j < k ==> s[..k][j] == s[j];
  }

  /** Every command that is served is granted, or comes after one that was. */
  ghost predicate OnlyGranted(fixed: bool, s: seq<Attempt>) {
    forall k :: 0 <= k < |s| && ReplyAt(fixed, s, k) == Success ==> exists j :: 0 <= j <= k && Granted(s[j])
  }

  /** The first attempt that finds or makes the vTPM. */
  ghost predicate FirstTouch(s: seq<Attempt>, f: nat) {
    f < |s| && Touches(s[f]) && forall j :: 0 <= j < f ==> !Touches(s[j])
  }

  /** When a connection serves only what is granted: always if refusals empty the cache; as the code is
      written, if and only if the attempt that first finds the vTPM is granted, or the next one is, or
      there is none. */
  lemma AccessExact(fixed: bool, s: seq<Attempt>)
    ensures OnlyGranted(fixed, s) <==>
      fixed || forall f: nat :: FirstTouch(s, f) ==> Granted(s[f]) || f + 1 == |s| || Granted(s[f + 1])
  {
    hide ReplyAt;
    forall k | 0 <= k < |s|
      ensures ReplyAt(fixed, s, k) == Success <==>
        Granted(s[k]) || exists j :: 0 <= j < k && (if fixed then Granted(s[j]) else Touches(s[j]))
    {
      ServedExact(fixed, s, k);
    }
    if !fixed {
      if f: nat :| FirstTouch(s, f) && !Granted(s[f]) && f + 1 != |s| && !Granted(s[f + 1]) {
        assert 0 <= f < f + 1 && Touches(s[f]);
        assert ReplyAt(fixed, s, f + 1) == Success;
        forall j | 0 <= j <= f + 1 ensures !Granted(s[j]) {
          assert j < f ==> !Touches(s[j]);
        }
      } else {
        forall k | 0 <= k < |s| && ReplyAt(fixed, s, k) == Success ensures exists j :: 0 <= j <= k && Granted(s[j]) {
          GrantedBy(s, k);
        }
      }
    }
  }

  lemma GrantedBy(s: seq<Attempt>, k: nat)
    requires k < |s| && (Granted(s[k]) || exists j :: 0 <= j < k && Touches(s[j]))
    requires forall f: nat :: FirstTouch(s, f) ==> Granted(s[f]) || f + 1 == |s| || Granted(s[f + 1])
    ensures exists j :: 0 <= j <= k && Granted(s[j])
  {
    if !Granted(s[k]) {
      var j :| 0 <= j < k && Touches(s[j]);
      var f := Earliest(s, j);
      assert Granted(s[f]) || Granted(s[f + 1]);
    }
  }

  lemma {:induction false} Earliest(s: seq<Attempt>, j: nat) returns (f: nat)
    requires j < |s| && Touches(s[j])
    ensures f <= j && FirstTouch(s, f)
  {
    hide Touches;
    if i :| 0 <= i < j && Touches(s[i]) {
      f := Earliest(s, i);
    } else {
      f := j;
    }
  }

  /** A client that is refused and asks again. */
  lemma RefusedThenServed()
    ensures var s := [Attempt(Closed, Some(false), false), Attempt(Closed, Some(false), false)];
      && ReplyAt(false, s, 0) == Disabled && ReplyAt(false, s, 1) == Success && !OnlyGranted(false, s)
      && ReplyAt(true, s, 1) == Disabled
  {
    var t := Attempt(Closed, Some(false), false);
    var s := [t, t];
    assert s[..0] == [] && s[..1] == [t] && [t][..0] == [];
    assert Holds(false, [t]) && !Holds(true, [t]);
    assert ReplyAt(false, s, 1) == Success && forall j :: 0 <= j <= 1 ==> !Granted(s[j]);
  }

  /** What the search for the UUID would find now. */
  ghost function SightOf(groups: seq<GroupHdr>, uuid: Blob): (r: Sight)
    requires AllPaged(groups)
  {
    if !Known(groups, uuid) then Unknown
    else if exists gi: nat, i: nat :: FirstAt(groups, uuid, gi, i) && IsOpen(Table(groups[gi].v.value)[i]) then InUse
    else Closed
  }

  /** The search has one result. */
  lemma SightFound(groups: seq<GroupHdr>, uuid: Blob, gi: nat, i: nat)
    requires AllPaged(groups) && FirstAt(groups, uuid, gi, i)
    ensures SightOf(groups, uuid) == if IsOpen(Table(groups[gi].v.value)[i]) then InUse else Closed
  {
    hide Paged, IsOpen;
    assert !Lacks(groups[gi].v.value, uuid);
    forall x: nat, j: nat | FirstAt(groups, uuid, x, j) ensures x == gi && j == i {
      assert !Lacks(groups[x].v.value, uuid);
    }
  }

  /* Loading what was saved. */

  /** How much of the stored data is sent: 52 bytes if the rest is zero. */
  function Sent(data: Blob): (r: Blob)
    ensures r <= data
  {
    if |data| >= 52 && forall k :: 52 <= k < |data| ==> data[k] == 0 then data[..52] else data
  }

  /** What was saved is what is sent exactly if it had 52 bytes, or all 64 and not only zeros in the rest. */
  lemma SentBack(buf: Blob)
    requires 52 <= |buf| <= DATA_SIZE
    ensures Sent(Stored64(buf)) == buf <==>
      |buf| == 52 || (|buf| == DATA_SIZE && exists k :: 52 <= k < DATA_SIZE && buf[k] != 0)
  {
    var data := Stored64(buf);
    assert data[..|buf|] == buf;
    if |buf| == 52 {
      assert forall k :: 52 <= k < DATA_SIZE ==> data[k] == 0;
    }
  }

  /* The code. */

  datatype Request = SaveHash(buf: Blob, peer: Option<bool>) | LoadHash(peer: Option<bool>)

  class Client {
    const uuid: Blob
    var cached: Option<(nat, nat)>

    constructor (uuid: Blob)
      ensures this.uuid == uuid && cached == None
    {
      this.uuid, cached := uuid, None;
    }

    /** The cached vTPM is one with the client's UUID. */
    ghost predicate Valid(groups: seq<GroupHdr>)
      reads this
    {
      cached.Some? ==>
        var (gi, i) := cached.value;
        && gi < |groups| && groups[gi].v.Some? && Paged(groups[gi].v.value) && i < groups[gi].v.value.nrVtpms
        && Table(groups[gi].v.value)[i].uuid == uuid
    }

    ghost function Own(groups: seq<GroupHdr>): (v: Vtpm)
      requires Valid(groups) && cached.Some?
      reads this
    {
      Table(groups[cached.value.0].v.value)[cached.value.1]
    }

    /** find_vtpm_verified. */
    method FindVerified(store: Store, peer: Option<bool>) returns (reply: Reply)
      requires store.Valid() && Valid(store.groups)
      modifies this`cached, store`groups
      ensures store.Valid() && Valid(store.groups) && AllPaged(old(store.groups))
      ensures (reply, cached.Some?) ==
        Verdict(store.fixed, old(cached).Some?, Attempt(SightOf(old(store.groups), uuid), peer, false))
      ensures old(cached).Some? ==> cached == old(cached)
      ensures reply != Success || old(cached).Some? ==> store.groups == old(store.groups)
      ensures reply == Success && old(cached).None? ==>
        && FirstAt(old(store.groups), uuid, cached.value.0, cached.value.1)
        && store.groups == old(store.groups)[cached.value.0 := store.groups[cached.value.0]]
        && var (gi, i) := cached.value;
           var table := Table(old(store.groups)[gi].v.value);
           Table(store.groups[gi].v.value) == table[i := table[i].(flags := table[i].flags + FLAG_OPEN)]
    {
      hide Coherent, InSync, Faithful, Paged, SightOf, IsOpen;
      CoherentPaged(store.c, store.dev.disk, store.keys.tm, store.groups);
      if cached.Some? {
        return Success;
      }
      var found, gi, i := Find(store.groups, uuid);
      if !found {
        NoSight(store.groups, uuid);
        return BadParameter;
      }
      SightFound(store.groups, uuid, gi, i);
      var g := store.groups[gi].v.value;
      Located(g, i);
      assert Table(g)[i] == At(g, i);
      if IsOpen(At(g, i)) {
        return Disabled;
      }
      cached := Some((gi, i));
      if peer == Some(true) {
        SetOpen(store, gi, i);
        return Success;
      }
      if store.fixed {
        cached := None;
      }
      return if peer.None? then Fail else Disabled;
    }

    /** vtpmmgr_SaveHashKey. */
    method SaveHashKey(store: Store, buf: Blob, peer: Option<bool>, counterOk: bool)
      returns (reply: Reply, result: Result, ghost wrote: bool)
      requires store.Valid() && Valid(store.groups) && |store.groups| > 0 && store.groups[0].v.Some?
      modifies this`cached, store, store.dev, store.dev.inuse
      ensures AllPaged(old(store.groups))
      ensures !(52 <= |buf| <= DATA_SIZE) ==> reply == BadParameter && cached == old(cached)
      ensures 52 <= |buf| <= DATA_SIZE ==>
        (reply, cached.Some?) ==
        Verdict(store.fixed, old(cached).Some?, Attempt(SightOf(old(store.groups), uuid), peer, true))
      ensures reply != Success ==>
        && store.Valid() && Valid(store.groups) && result == Skipped
        && store.groups == old(store.groups) && Now(store.dev) == old(Now(store.dev))
      ensures result in {Done, CounterFailed} ==> wrote
      ensures old(cached).Some? ==> cached == old(cached)
      ensures reply == Success && (result == Skipped || wrote) ==>
        |buf| <= DATA_SIZE && Saved(store, buf, old(|store.groups|))
    {
      hide Coherent, InSync, Faithful, Paged, SightOf, Stored64, Saved, Device.Valid;
      result, wrote := Skipped, false;
      CoherentPaged(store.c, store.dev.disk, store.keys.tm, store.groups);
      if !(52 <= |buf| <= DATA_SIZE) {
        return BadParameter, result, wrote;
      }
      reply := FindVerified(store, peer);
      if reply == BadParameter {
        result, wrote := SaveMade(store, buf, counterOk);
        reply := Success;
      } else if reply == Success {
        result, wrote := SaveOwn(store, buf, counterOk);
      }
    }

    /** The data goes to the cached vTPM. */
    method SaveOwn(store: Store, buf: Blob, counterOk: bool) returns (result: Result, ghost wrote: bool)
      requires store.Valid() && Valid(store.groups) && cached.Some? && 52 <= |buf| <= DATA_SIZE
      requires |store.groups| > 0 && store.groups[0].v.Some?
      modifies store, store.dev, store.dev.inuse
      ensures result in {Done, CounterFailed} ==> wrote
      ensures result == Skipped || wrote ==> Saved(store, buf, old(|store.groups|))
    {
      hide Coherent, InSync, Faithful, Paged, OthersKept, SameVtpms, Stored64, Device.Valid;
      var (gi, i) := cached.value;
      ghost var was := store.groups;
      var reply;
      reply, result, wrote := Save(store, gi, i, buf, counterOk);
      if result == Skipped || wrote {
        StillOpen(was, store.groups, gi, 0);
        CoherentPaged(store.c, store.dev.disk, store.keys.tm, store.groups);
      }
    }

    /** The data goes to a new vTPM, which is cached. */
    method SaveMade(store: Store, buf: Blob, counterOk: bool) returns (result: Result, ghost wrote: bool)
      requires store.Valid() && 52 <= |buf| <= DATA_SIZE
      requires |store.groups| > 0 && store.groups[0].v.Some?
      modifies this`cached, store, store.dev, store.dev.inuse
      ensures cached.Some?
      ensures result in {Done, CounterFailed} ==> wrote
      ensures result == Skipped || wrote ==> Saved(store, buf, old(|store.groups|))
    {
      hide Coherent, InSync, Faithful, Paged, OthersKept, Stored64, Device.Valid;
      var n := store.groups[0].v.value.nrVtpms;
      result, wrote := SaveNew(store, uuid, buf, counterOk);
      cached := Some((0, n));
      if result == Skipped || wrote {
        CoherentPaged(store.c, store.dev.disk, store.keys.tm, store.groups);
      }
    }

    /** The store goes on, and the cached vTPM has the data. */
    ghost predicate Saved(store: Store, buf: Blob, n: nat)
      requires |buf| <= DATA_SIZE
      reads this, store, store.dev, store.dev.inuse
    {
      && store.Valid() && Valid(store.groups) && AllPaged(store.groups) && cached.Some?
      && |store.groups| == n > 0 && store.groups[0].v.Some? && Own(store.groups).data == Stored64(buf)
    }

    /** vtpmmgr_LoadHashKey. */
    method LoadHashKey(store: Store, peer: Option<bool>) returns (reply: Reply, buf: Blob)
      requires store.Valid() && Valid(store.groups)
      modifies this`cached, store`groups
      ensures store.Valid() && Valid(store.groups) && AllPaged(old(store.groups))
      ensures |store.groups| == old(|store.groups|)
      ensures (reply, cached.Some?) ==
        Verdict(store.fixed, old(cached).Some?, Attempt(SightOf(old(store.groups), uuid), peer, false))
      ensures reply == Success ==> buf == Sent(Own(store.groups).data)
      ensures reply != Success ==> store.groups == old(store.groups) && buf == []
      ensures forall j :: 0 <= j < |store.groups| ==> (store.groups[j].v.Some? <==> old(store.groups)[j].v.Some?)
    {
      hide Coherent, InSync, Faithful, Paged, SightOf;
      reply := FindVerified(store, peer);
      if reply != Success {
        return reply, [];
      }
      var (gi, i) := cached.value;
      var g := store.groups[gi].v.value;
      Located(g, i);
      var data := At(g, i).data;
      assert Table(g)[i] == At(g, i);
      if |data| < 52 {
        return reply, data;
      }
      for k := 52 to |data|
        invariant forall j :: 52 <= j < k ==> data[j] == 0
      {
        if data[k] != 0 {
          return reply, data;
        }
      }
      return reply, data[..52];
    }

    /** vtpmmgr_permcheck: management is for whoever has an administrator's vTPM cached. */
    method MayManage(store: Store) returns (ok: bool)
      requires store.Valid() && Valid(store.groups)
      ensures ok <==> cached.Some? && Own(store.groups).flags % 2 == 1
    {
      if cached.None? {
        return false;
      }
      var (gi, i) := cached.value;
      Located(store.groups[gi].v.value, i);
      return At(store.groups[gi].v.value, i).flags % 2 == 1;
    }

    /** A connection's commands, one after the other, until the manager aborts.  The replies to those that get
        as far as the lookup are the specified ones, so that exactly under the condition given only what
        is granted is served. */
    method Session(store: Store, requests: seq<Request>, counterOk: bool)
      returns (replies: seq<Reply>, ghost s: seq<Attempt>, handled: nat, last: Result)
      requires store.Valid() && cached.None? && |store.groups| > 0 && store.groups[0].v.Some?
      modifies this`cached, store, store.dev, store.dev.inuse
      ensures |replies| == |s| <= |requests| && forall k :: 0 <= k < |s| ==> replies[k] == ReplyAt(store.fixed, s, k)
      ensures handled <= |requests| && Asked(Lookups(requests[..handled]), s)
      ensures handled == |requests| <==> last != Aborted
      ensures last != Aborted ==> store.Valid() && Valid(store.groups) && (cached.Some? <==> Holds(store.fixed, s))
      ensures (forall k :: 0 <= k < |s| && replies[k] == Success ==> exists j :: 0 <= j <= k && Granted(s[j])) <==>
        store.fixed || forall f: nat :: FirstTouch(s, f) ==> Granted(s[f]) || f + 1 == |s| || Granted(s[f + 1])
    {
      hide Coherent, InSync, Faithful, Paged, SightOf, Verdict, Holds, ReplyAt, OnlyGranted, FirstTouch, Granted,
           Device.Valid, Lookups, Asked;
      replies, s, handled, last := [], [], 0, Skipped;
      AskedNone(requests);
      HoldsNone(store.fixed);
      while handled < |requests|
        invariant store.Valid() && Valid(store.groups) && |store.groups| > 0 && store.groups[0].v.Some?
        invariant handled <= |requests| && last != Aborted && Asked(Lookups(requests[..handled]), s)
        invariant |replies| == |s| <= handled && forall k :: 0 <= k < |s| ==> replies[k] == ReplyAt(store.fixed, s, k)
        invariant cached.Some? <==> Holds(store.fixed, s)
      {
        CoherentPaged(store.c, store.dev.disk, store.keys.tm, store.groups);
        var request := requests[handled];
        var reply, looked := BadParameter, true;
        ghost var t := Attempt(SightOf(store.groups, uuid), request.peer, request.SaveHash?);
        match request {
          case SaveHash(buf, peer) =>
            ghost var wrote;
            reply, last, wrote := SaveHashKey(store, buf, peer, counterOk);
            looked := 52 <= |buf| <= DATA_SIZE;
          case LoadHash(peer) =>
            var data;
            reply, data := LoadHashKey(store, peer);
        }
        if last == Aborted {
          break;
        }
        AskedNext(requests, handled, s, t);
        if looked {
          ReplyNext(store.fixed, s, t);
          replies, s := replies + [reply], s + [t];
        }
        handled := handled + 1;
      }
      SessionExact(store.fixed, s, replies);
    }
  }

  /** The requests that get as far as the lookup. */
  ghost function Lookups(requests: seq<Request>): (r: seq<Request>) {
    if requests == [] then []
    else
      var n := |requests| - 1;
      Lookups(requests[..n]) + if LooksUp(requests[n]) then [requests[n]] else []
  }

  predicate LooksUp(request: Request) {
    request.SaveHash? ==> 52 <= |request.buf| <= DATA_SIZE
  }

  /** The attempts are those of the requests. */
  ghost predicate Asked(requests: seq<Request>, s: seq<Attempt>) {
    |s| == |requests| && forall k :: 0 <= k < |s| ==>
      s[k].peer == requests[k].peer && (s[k].creates <==> requests[k].SaveHash?)
  }

  lemma AskedNone(requests: seq<Request>)
    ensures Asked(Lookups(requests[..0]), [])
  {
  }

  lemma AskedNext(requests: seq<Request>, n: nat, s: seq<Attempt>, t: Attempt)
    requires n < |requests| && Asked(Lookups(requests[..n]), s)
    requires t.peer == requests[n].peer && (t.creates <==> requests[n].SaveHash?)
    ensures Asked(Lookups(requests[..n + 1]), if LooksUp(requests[n]) then s + [t] else s)
  {
    assert requests[..n + 1][..n] == requests[..n];
  }

  /** A write of one group leaves the others open or closed. */
  lemma StillOpen(was: seq<GroupHdr>, groups: seq<GroupHdr>, gi: nat, j: nat)
    requires gi < |was| && j < |was| && OthersKept(was, groups, gi) && was[j].v.Some? && groups[gi].v.Some?
    ensures groups[j].v.Some?
  {
  }

  lemma HoldsNone(fixed: bool)
    ensures !Holds(fixed, [])
  {
  }

  /** One more attempt. */
  lemma ReplyNext(fixed: bool, s: seq<Attempt>, t: Attempt)
    ensures (ReplyAt(fixed, s + [t], |s|), Holds(fixed, s + [t])) == Verdict(fixed, Holds(fixed, s), t)
    ensures forall k :: 0 <= k < |s| ==> ReplyAt(fixed, s + [t], k) == ReplyAt(fixed, s, k)
  {
    hide Verdict;
    assert (s + [t])[..|s|] == s;
    forall k | 0 <= k < |s| ensures ReplyAt(fixed, s + [t], k) == ReplyAt(fixed, s, k) {
      assert (s + [t])[..k] == s[..k];
    }
  }

  lemma SessionExact(fixed: bool, s: seq<Attempt>, replies: seq<Reply>)
    requires |replies| == |s| && forall k :: 0 <= k < |s| ==> replies[k] == ReplyAt(fixed, s, k)
    ensures (forall k :: 0 <= k < |s| && replies[k] == Success ==> exists j :: 0 <= j <= k && Granted(s[j])) <==>
      fixed || forall f: nat :: FirstTouch(s, f) ==> Granted(s[f]) || f + 1 == |s| || Granted(s[f + 1])
  {
    hide Granted, FirstTouch, ReplyAt;
    AccessExact(fixed, s);
  }

  lemma NoSight(groups: seq<GroupHdr>, uuid: Blob)
    requires AllPaged(groups)
    requires forall x :: 0 <= x < |groups| && groups[x].v.Some? ==> Lacks(groups[x].v.value, uuid)
    ensures SightOf(groups, uuid) == Unknown && !Known(groups, uuid)
  {
  }
}
