/**
 Crash safety of the two-root protocol.  A sync is a list of sector writes that the device may
 persist in any subset before the barrier; loading afterwards finds the state before the sync or
 the state after it.
 */
module Crash {
  import opened Wrappers
  import opened DiskFormat
  import opened IndexTree
  import opened DiskLoad
  import opened LoadLaws

  datatype Write = Write(sector: Sector, blob: Blob)

  function Apply(disk: Disk, log: seq<Write>): (r: Disk) {
    if log == [] then disk
    else
      var last := log[|log| - 1];
      Apply(disk, log[..|log| - 1])[last.sector := last.blob]
  }

  /** The writes that reached the medium before the crash. */
  function Kept(log: seq<Write>, kept: seq<bool>): (r: seq<Write>)
    requires |kept| == |log|
  {
    if log == [] then []
    else
      var n := |log| - 1;
      Kept(log[..n], kept[..n]) + (if kept[n] then [log[n]] else [])
  }

  /** Write i is the last one of sector s that reached the medium. */
  ghost predicate LastKept(log: seq<Write>, kept: seq<bool>, s: Sector, i: nat)
    requires |kept| == |log|
  {
    i < |log| && kept[i] && log[i].sector == s && forall j :: i < j < |log| && kept[j] ==> log[j].sector != s
  }

  /** After a crash a sector holds what the last such write put there, or what it held before. */
  lemma {:induction false} CrashReads(disk: Disk, log: seq<Write>, kept: seq<bool>, s: Sector)
    requires |kept| == |log| && s < 0x10_0000
    ensures forall i: nat :: LastKept(log, kept, s, i) ==> Read(Apply(disk, Kept(log, kept)), s) == log[i].blob
    ensures (forall i: nat :: !LastKept(log, kept, s, i)) ==> Read(Apply(disk, Kept(log, kept)), s) == Read(disk, s)
  {
    if log != [] {
      hide Apply, Kept, Read;
      var n := |log| - 1;
      CrashReads(disk, log[..n], kept[..n], s);
      ReadKept(disk, log, kept, s);
      forall i: nat
        ensures LastKept(log, kept, s, i) <==>
          if kept[n] && log[n].sector == s then i == n else LastKept(log[..n], kept[..n], s, i)
      {
        LastKeptStep(log, kept, s, i);
      }
      hide LastKept;
      assert kept[n] && log[n].sector == s ==> LastKept(log, kept, s, n);
      forall i: nat | LastKept(log, kept, s, i) ensures i < |log| && Read(Apply(disk, Kept(log, kept)), s) == log[i].blob
      {
        LastKeptIndex(log, kept, s, i);
        if !(kept[n] && log[n].sector == s) {
          LastKeptIndex(log[..n], kept[..n], s, i);
        }
      }
    }
  }

  lemma LastKeptIndex(log: seq<Write>, kept: seq<bool>, s: Sector, i: nat)
    requires |kept| == |log| && LastKept(log, kept, s, i)
    ensures i < |log|
  {
  }

  lemma ReadKept(disk: Disk, log: seq<Write>, kept: seq<bool>, s: Sector)
    requires |kept| == |log| > 0 && s < 0x10_0000
    ensures var n := |log| - 1;
      Read(Apply(disk, Kept(log, kept)), s)
      == if kept[n] && log[n].sector == s then log[n].blob else Read(Apply(disk, Kept(log[..n], kept[..n])), s)
  {
    var n := |log| - 1;
    var before := Kept(log[..n], kept[..n]);
    assert (before + [log[n]])[..|before|] == before;
    assert Kept(log, kept) == if kept[n] then before + [log[n]] else before;
  }

  lemma LastKeptStep(log: seq<Write>, kept: seq<bool>, s: Sector, i: nat)
    requires |kept| == |log| > 0
    ensures var n := |log| - 1;
      LastKept(log, kept, s, i) <==>
      if kept[n] && log[n].sector == s then i == n else LastKept(log[..n], kept[..n], s, i)
  {
    var n := |log| - 1;
    if i < n && !(kept[n] && log[n].sector == s) && LastKept(log[..n], kept[..n], s, i) {
      forall j | i < j < |log| && kept[j] ensures log[j].sector != s {
        assert j < n ==> log[..n][j] == log[j] && kept[..n][j] == kept[j];
      }
    }
    if i < n && LastKept(log, kept, s, i) {
      forall j | i < j < n && kept[..n][j] ensures log[..n][j].sector != s {
        assert log[..n][j] == log[j] && kept[..n][j] == kept[j];
      }
    }
  }

  lemma {:induction false} KeptFrom(log: seq<Write>, kept: seq<bool>)
    requires |kept| == |log|
    ensures forall w :: w in Kept(log, kept) ==> w in log
  {
    if log != [] {
      KeptFrom(log[..|log| - 1], kept[..|log| - 1]);
    }
  }

  /** A sector returns what it held before or what one of the writes put there. */
  lemma {:induction false} ReadApply(disk: Disk, log: seq<Write>, s: Sector)
    ensures Read(Apply(disk, log), s) == Read(disk, s)
         || exists w :: w in log && w.sector == s % 0x10_0000 && Read(Apply(disk, log), s) == w.blob
  {
    if log != [] {
      var n := |log| - 1;
      ReadApply(disk, log[..n], s);
      if log[n].sector == s % 0x10_0000 {
        assert log[n] in log;
      } else if Read(Apply(disk, log[..n]), s) != Read(disk, s) {
        var w :| w in log[..n] && w.sector == s % 0x10_0000 && Read(Apply(disk, log[..n]), s) == w.blob;
        assert w in log;
      }
    }
  }

  /** A sector that is written returns one of the blobs written to it. */
  lemma {:induction false} ReadWritten(disk: Disk, log: seq<Write>, s: Sector)
    requires exists w :: w in log && w.sector == s % 0x10_0000
    ensures exists w :: w in log && w.sector == s % 0x10_0000 && Read(Apply(disk, log), s) == w.blob
  {
    var n := |log| - 1;
    if log[n].sector == s % 0x10_0000 {
      assert log[n] in log;
    } else {
      var w :| w in log && w.sector == s % 0x10_0000;
      assert w in log[..n];
      ReadWritten(disk, log[..n], s);
      var v :| v in log[..n] && v.sector == s % 0x10_0000 && Read(Apply(disk, log[..n]), s) == v.blob;
      assert v in log;
    }
  }

  function BlobsOf(log: seq<Write>): (r: set<Blob>) {
    set w | w in log :: w.blob
  }

  lemma {:induction false} BlobsApply(disk: Disk, log: seq<Write>)
    ensures Blobs(Apply(disk, log)) <= Blobs(disk) + BlobsOf(log)
  {
    if log != [] {
      var n := |log| - 1;
      BlobsApply(disk, log[..n]);
      var before := Apply(disk, log[..n]);
      forall b | b in Apply(disk, log).Values ensures b in before.Values || b == log[n].blob {
        var s :| s in Apply(disk, log) && Apply(disk, log)[s] == b;
        assert s == log[n].sector || (s in before && before[s] == b);
      }
      assert log[n] in log && forall w :: w in log[..n] ==> w in log;
    }
  }

  /** The other slot holds no root, or an older one. */
  ghost predicate Calm(c: Codec, disk: Disk, keys: RootKeys, a: nat, root: RootSector)
    requires a < 2
  {
    var other := c.openRoot(keys.tm, Read(disk, 3 - a));
    other.None? || other.value.area.sequence < root.area.sequence
  }

  /** The manager's view of the disk between syncs: slot a holds the current root, and it loads.  A newer root
      may stand in the other slot: one that a crash interrupted, or whose counter the TPM did not take. */
  ghost predicate Standing(c: Codec, tpm: Tpm, disk: Disk, keys: RootKeys, fixed: bool, a: nat, root: RootSector)
    requires Sized(c)
  {
    && a < 2
    && FindRoot(c, tpm, disk, a) == Some(Candidate(keys, root))
    && Try(c, tpm, disk, fixed, a).Loaded?
    && UnsealRoot(c, tpm, Read(disk, 1 - a)) in {None, Some(keys)}
  }

  /** Where a sync of such a disk may write, and what it writes to the fixed sectors. */
  ghost predicate SyncLog(c: Codec, tpm: Tpm, disk: Disk, keys: RootKeys, fixed: bool, a: nat,
                          root: RootSector, log: seq<Write>, root': RootSector)
    requires Sized(c)
  {
    forall w :: w in log ==>
      || (w.sector == 1 - a && UnsealRoot(c, tpm, w.blob) == Some(keys))
      || (w.sector == 3 - a && c.openRoot(keys.tm, w.blob) == Some(root'))
      || (w.sector >= FIRST_DYNAMIC_SECTOR
          && forall s: Sector :: Reached(c, tpm, disk, keys, fixed, root, s) ==> s % 0x10_0000 != w.sector)
  }

  /** The root of the other slot has been written. */
  ghost predicate WritesRoot(a: nat, log: seq<Write>) {
    exists w :: w in log && w.sector == 3 - a
  }

  /** The current slot is out of reach of the sync. */
  lemma CurrentSlotSurvives(c: Codec, tpm: Tpm, disk: Disk, keys: RootKeys, fixed: bool, a: nat,
                            root: RootSector, log: seq<Write>, root': RootSector)
    requires Sized(c) && Standing(c, tpm, disk, keys, fixed, a, root)
    requires SyncLog(c, tpm, disk, keys, fixed, a, root, log, root')
    requires forall s: Sector :: Reached(c, tpm, disk, keys, fixed, root, s) ==> s % 0x10_0000 >= FIRST_DYNAMIC_SECTOR
    ensures FindRoot(c, tpm, Apply(disk, log), a) == FindRoot(c, tpm, disk, a)
    ensures Try(c, tpm, Apply(disk, log), fixed, a) == Try(c, tpm, disk, fixed, a)
    ensures forall s: Sector ::
      Reached(c, tpm, Apply(disk, log), keys, fixed, root, s) <==> Reached(c, tpm, disk, keys, fixed, root, s)
  {
    hide LoadRoot, Reached;
    var after := Apply(disk, log);
    ReadApply(disk, log, a);
    ReadApply(disk, log, 2 + a);
    assert Read(after, a) == Read(disk, a) && Read(after, 2 + a) == Read(disk, 2 + a);
    forall s: Sector | Reached(c, tpm, disk, keys, fixed, root, s) ensures Read(disk, s) == Read(after, s) {
      ReadApply(disk, log, s);
    }
    RootFrame(c, tpm, disk, after, keys, fixed, a, root);
  }

  /** What the other slot offers after any part of the sync: nothing, the new root, or the root it held. */
  lemma OtherSlot(c: Codec, tpm: Tpm, disk: Disk, keys: RootKeys, fixed: bool, a: nat,
                  root: RootSector, log: seq<Write>, root': RootSector)
    requires Sized(c) && Standing(c, tpm, disk, keys, fixed, a, root)
    requires SyncLog(c, tpm, disk, keys, fixed, a, root, log, root')
    ensures var other := FindRoot(c, tpm, Apply(disk, log), 1 - a);
      var held := c.openRoot(keys.tm, Read(disk, 3 - a));
      || other.None?
      || (other == Some(Candidate(keys, root')) && WritesRoot(a, log))
      || (held.Some? && other == Some(Candidate(keys, held.value)))
    ensures UnsealRoot(c, tpm, Read(Apply(disk, log), 1 - a)) in {None, Some(keys)}
    ensures var held' := c.openRoot(keys.tm, Read(Apply(disk, log), 3 - a));
      held' == c.openRoot(keys.tm, Read(disk, 3 - a)) || (held' == Some(root') && WritesRoot(a, log))
  {
    hide SyncLog, LoadRoot, Try, Apply, WritesRoot, Reached;
    assert a < 2;
    FixedSectors(c, tpm, disk, keys, fixed, a, root, log, root');
    assert 3 - a == 2 + (1 - a);
  }

  /** The fixed sectors of the other slot after any part of the sync. */
  lemma FixedSectors(c: Codec, tpm: Tpm, disk: Disk, keys: RootKeys, fixed: bool, a: nat, root: RootSector,
                     log: seq<Write>, root': RootSector)
    requires Sized(c) && a < 2 && SyncLog(c, tpm, disk, keys, fixed, a, root, log, root')
    ensures var b := Read(Apply(disk, log), 1 - a);
      b == Read(disk, 1 - a) || UnsealRoot(c, tpm, b) == Some(keys)
    ensures var b := Read(Apply(disk, log), 3 - a);
      b == Read(disk, 3 - a) || (c.openRoot(keys.tm, b) == Some(root') && WritesRoot(a, log))
  {
    hide Reached, Apply;
    ReadApply(disk, log, 1 - a);
    ReadApply(disk, log, 3 - a);
  }

  /** The new root, if it is written, is newer, and the TPM takes it unless it refuses its counter. */
  ghost predicate Proper(c: Codec, tpm: Tpm, disk: Disk, fixed: bool, a: nat, root: RootSector, log: seq<Write>,
                         root': RootSector)
    requires Sized(c) && a < 2
  {
    WritesRoot(a, log) ==>
      && root'.area.sequence > root.area.sequence
      && (!Try(c, tpm, Apply(disk, log), fixed, 1 - a).Rejected? || !tpm.counterOk(root'.area.counter))
  }

  /** The load takes the newer root that the other slot held before the sync. */
  ghost predicate Resumes(c: Codec, tpm: Tpm, disk: Disk, after: Disk, keys: RootKeys, fixed: bool, a: nat,
                          root: RootSector)
    requires Sized(c) && a < 2
  {
    var held := c.openRoot(keys.tm, Read(disk, 3 - a));
    && !Calm(c, disk, keys, a, root)
    && held.Some? && FindRoot(c, tpm, after, 1 - a) == Some(Candidate(keys, held.value))
    && Load(c, tpm, after, fixed) == Try(c, tpm, after, fixed, 1 - a) && !Load(c, tpm, after, fixed).Rejected?
  }

  /** What a load may find after a crash: the state from before the sync, logically the state that the
      complete sync leaves, or the newer root that the other slot held all along. */
  ghost predicate Recovers(c: Codec, tpm: Tpm, disk: Disk, whole: Disk, after: Disk, keys: RootKeys, fixed: bool,
                           a: nat, root: RootSector)
    requires Sized(c) && a < 2
  {
    || Load(c, tpm, after, fixed) == Try(c, tpm, disk, fixed, a)
    || Same(Load(c, tpm, after, fixed), Load(c, tpm, whole, fixed))
    || Resumes(c, tpm, disk, after, keys, fixed, a, root)
  }

  /** Whatever subset of a sync's writes persists, there are no other outcomes.  This includes a sync that
      aborts half way, and one whose index and page sectors did not all reach the medium although its root
      did. */
  lemma CrashOutcomes(c: Codec, tpm: Tpm, disk: Disk, keys: RootKeys, fixed: bool, a: nat, root: RootSector,
                      log: seq<Write>, root': RootSector, kept: seq<bool>)
    requires Sized(c) && Standing(c, tpm, disk, keys, fixed, a, root)
    requires SyncLog(c, tpm, disk, keys, fixed, a, root, log, root')
    requires forall s: Sector :: Reached(c, tpm, disk, keys, fixed, root, s) ==> s % 0x10_0000 >= FIRST_DYNAMIC_SECTOR
    requires Proper(c, tpm, disk, fixed, a, root, log, root')
    requires NoCollision(c, keys.tm, Blobs(disk) + BlobsOf(log))
    requires |kept| == |log|
    ensures Recovers(c, tpm, disk, Apply(disk, log), Apply(disk, Kept(log, kept)), keys, fixed, a, root)
  {
    hide Load, Same, NoCollision, FindRoot, Try, SyncLog, WritesRoot, Reached, Standing, Calm, Proper, Apply, Kept,
         BlobsOf;
    StandingRoot(c, tpm, disk, keys, fixed, a, root);
    var part, b := Kept(log, kept), 1 - a;
    var after := Apply(disk, part);
    PartOfSync(c, tpm, disk, keys, fixed, a, root, log, root', kept);
    CurrentSlotSurvives(c, tpm, disk, keys, fixed, a, root, part, root');
    OtherSlot(c, tpm, disk, keys, fixed, a, root, part, root');
    OneOf(c, tpm, after, fixed, a);
    if Load(c, tpm, after, fixed) != Try(c, tpm, after, fixed, a) {
      var other := FindRoot(c, tpm, after, b);
      TryFound(c, tpm, after, fixed, b);
      if other == Some(Candidate(keys, root')) && WritesRoot(a, part) {
        NewRootTaken(c, tpm, disk, keys, fixed, a, root, log, part, root');
      } else {
        HeldRoot(c, tpm, disk, after, keys, fixed, a, root);
      }
    }
  }

  /** A root that the other slot has held and that is now chosen is newer. */
  lemma HeldRoot(c: Codec, tpm: Tpm, disk: Disk, after: Disk, keys: RootKeys, fixed: bool, a: nat, root: RootSector)
    requires Sized(c) && Standing(c, tpm, disk, keys, fixed, a, root)
    requires c.openRoot(keys.tm, Read(disk, 3 - a)).Some?
    requires FindRoot(c, tpm, after, a) == Some(Candidate(keys, root)) && Try(c, tpm, after, fixed, a).Loaded?
    requires FindRoot(c, tpm, after, 1 - a) == Some(Candidate(keys, c.openRoot(keys.tm, Read(disk, 3 - a)).value))
    requires Load(c, tpm, after, fixed) != Try(c, tpm, after, fixed, a)
    ensures !Calm(c, disk, keys, a, root)
  {
    hide Try, FindRoot, Load;
    if Calm(c, disk, keys, a, root) {
      LoadPrefersNewer(c, tpm, after, fixed, a);
    }
  }

  /** The load takes one of the two slots. */
  lemma OneOf(c: Codec, tpm: Tpm, disk: Disk, fixed: bool, a: nat)
    requires Sized(c) && a < 2 && Try(c, tpm, disk, fixed, a).Loaded?
    ensures var r := Load(c, tpm, disk, fixed);
      r == Try(c, tpm, disk, fixed, a) || (r == Try(c, tpm, disk, fixed, 1 - a) && !r.Rejected?)
  {
    hide Try;
  }

  lemma TryFound(c: Codec, tpm: Tpm, disk: Disk, fixed: bool, slot: nat)
    requires Sized(c) && !Try(c, tpm, disk, fixed, slot).Rejected?
    ensures FindRoot(c, tpm, disk, slot).Some? && tpm.counterOk(FindRoot(c, tpm, disk, slot).value.root.area.counter)
  {
    hide Resolve, LoadGroups, Scan, FindRoot;
  }

  /** A new root that loads from a part of the sync loads the same from all of it. */
  lemma NewRootTaken(c: Codec, tpm: Tpm, disk: Disk, keys: RootKeys, fixed: bool, a: nat, root: RootSector,
                     log: seq<Write>, part: seq<Write>, root': RootSector)
    requires Sized(c) && Standing(c, tpm, disk, keys, fixed, a, root)
    requires SyncLog(c, tpm, disk, keys, fixed, a, root, log, root')
    requires forall s: Sector :: Reached(c, tpm, disk, keys, fixed, root, s) ==> s % 0x10_0000 >= FIRST_DYNAMIC_SECTOR
    requires Proper(c, tpm, disk, fixed, a, root, log, root') && WritesRoot(a, log)
    requires NoCollision(c, keys.tm, Blobs(disk) + BlobsOf(log)) && BlobsOf(part) <= BlobsOf(log)
    requires FindRoot(c, tpm, Apply(disk, part), 1 - a) == Some(Candidate(keys, root'))
    requires !Try(c, tpm, Apply(disk, part), fixed, 1 - a).Rejected?
    ensures Same(Try(c, tpm, Apply(disk, part), fixed, 1 - a), Load(c, tpm, Apply(disk, log), fixed))
  {
    hide Load, Same, NoCollision, FindRoot, Try, SyncLog, WritesRoot, Reached, Standing, Apply, BlobsOf;
    StandingRoot(c, tpm, disk, keys, fixed, a, root);
    var whole, b := Apply(disk, log), 1 - a;
    assert a == 1 - b;
    TryFound(c, tpm, Apply(disk, part), fixed, b);
    CurrentSlotSurvives(c, tpm, disk, keys, fixed, a, root, log, root');
    WholeSync(c, tpm, disk, keys, fixed, a, root, log, root');
    assert Sequence(c, tpm, whole, a) == root.area.sequence && Sequence(c, tpm, whole, b) == root'.area.sequence;
    LoadPrefersNewer(c, tpm, whole, fixed, b);
    NewRootLoads(c, tpm, disk, keys, fixed, b, log, part, root');
  }

  /** From a calm disk the load yields the state from before the sync or, logically, the one that the
      complete sync leaves. */
  lemma CalmRecovers(c: Codec, tpm: Tpm, disk: Disk, whole: Disk, after: Disk, keys: RootKeys, fixed: bool, a: nat,
                     root: RootSector)
    requires Sized(c) && Standing(c, tpm, disk, keys, fixed, a, root) && Calm(c, disk, keys, a, root)
    requires Recovers(c, tpm, disk, whole, after, keys, fixed, a, root)
    ensures var crashed := Load(c, tpm, after, fixed);
      crashed == Load(c, tpm, disk, fixed) || Same(crashed, Load(c, tpm, whole, fixed))
  {
    hide Load, Same, FindRoot, Try, Standing, Calm;
    LoadBefore(c, tpm, disk, keys, fixed, a, root);
  }

  /** A newer root in the other slot has all its sectors on the given disk, or the TPM refuses its counter. */
  ghost predicate Interrupted(c: Codec, tpm: Tpm, disk: Disk, keys: RootKeys, fixed: bool, a: nat, root: RootSector,
                              full: Disk)
    requires Sized(c) && a < 2
  {
    var held := c.openRoot(keys.tm, Read(disk, 3 - a));
    !Calm(c, disk, keys, a, root) ==>
      || !tpm.counterOk(held.value.area.counter)
      || (FindRoot(c, tpm, full, 1 - a) == Some(Candidate(keys, held.value))
          && !Try(c, tpm, full, fixed, 1 - a).Rejected?)
  }

  /** The root that resumes loads what it loads from any disk that has all of its sectors. */
  lemma ResumesInterrupted(c: Codec, tpm: Tpm, disk: Disk, after: Disk, keys: RootKeys, fixed: bool, a: nat,
                           root: RootSector, full: Disk, blobs: set<Blob>)
    requires Sized(c) && a < 2 && Resumes(c, tpm, disk, after, keys, fixed, a, root)
    requires Interrupted(c, tpm, disk, keys, fixed, a, root, full)
    requires NoCollision(c, keys.tm, blobs) && Blobs(after) <= blobs && Blobs(full) <= blobs
    ensures Same(Load(c, tpm, after, fixed), Try(c, tpm, full, fixed, 1 - a))
  {
    hide LoadRoot, Same, NoCollision, Load, FindRoot;
    var held, b := c.openRoot(keys.tm, Read(disk, 3 - a)).value, 1 - a;
    TryFound(c, tpm, after, fixed, b);
    RootDetermined(c, tpm, after, full, keys, fixed, b, blobs, held, held);
  }

  lemma PartOfSync(c: Codec, tpm: Tpm, disk: Disk, keys: RootKeys, fixed: bool, a: nat, root: RootSector,
                   log: seq<Write>, root': RootSector, kept: seq<bool>)
    requires Sized(c) && SyncLog(c, tpm, disk, keys, fixed, a, root, log, root') && |kept| == |log|
    ensures SyncLog(c, tpm, disk, keys, fixed, a, root, Kept(log, kept), root')
    ensures BlobsOf(Kept(log, kept)) <= BlobsOf(log)
    ensures WritesRoot(a, Kept(log, kept)) ==> WritesRoot(a, log)
  {
    hide Reached;
    KeptFrom(log, kept);
  }

  /** Two disks that show the new root and both load from it load the same. */
  lemma NewRootLoads(c: Codec, tpm: Tpm, disk: Disk, keys: RootKeys, fixed: bool, slot: nat,
                     log: seq<Write>, part: seq<Write>, root: RootSector)
    requires Sized(c) && NoCollision(c, keys.tm, Blobs(disk) + BlobsOf(log)) && BlobsOf(part) <= BlobsOf(log)
    requires FindRoot(c, tpm, Apply(disk, part), slot) == Some(Candidate(keys, root))
    requires FindRoot(c, tpm, Apply(disk, log), slot) == Some(Candidate(keys, root))
    requires !Try(c, tpm, Apply(disk, part), fixed, slot).Rejected?
    requires !Try(c, tpm, Apply(disk, log), fixed, slot).Rejected?
    ensures Same(Try(c, tpm, Apply(disk, part), fixed, slot), Try(c, tpm, Apply(disk, log), fixed, slot))
  {
    hide LoadRoot, Same, NoCollision;
    BlobsApply(disk, part);
    BlobsApply(disk, log);
    RootDetermined(c, tpm, Apply(disk, part), Apply(disk, log), keys, fixed, slot,
                   Blobs(disk) + BlobsOf(log), root, root);
  }

  lemma StandingRoot(c: Codec, tpm: Tpm, disk: Disk, keys: RootKeys, fixed: bool, a: nat, root: RootSector)
    requires Sized(c) && Standing(c, tpm, disk, keys, fixed, a, root)
    ensures a < 2 && FindRoot(c, tpm, disk, a) == Some(Candidate(keys, root)) && Try(c, tpm, disk, fixed, a).Loaded?
  {
  }

  /** A calm disk loads the current root. */
  lemma LoadBefore(c: Codec, tpm: Tpm, disk: Disk, keys: RootKeys, fixed: bool, a: nat, root: RootSector)
    requires Sized(c) && Standing(c, tpm, disk, keys, fixed, a, root) && Calm(c, disk, keys, a, root)
    ensures Load(c, tpm, disk, fixed) == Try(c, tpm, disk, fixed, a)
  {
    hide LoadRoot, Load;
    LoadPrefersNewer(c, tpm, disk, fixed, a);
  }

  /** The complete sync leaves the new root in the other slot. */
  lemma WholeSync(c: Codec, tpm: Tpm, disk: Disk, keys: RootKeys, fixed: bool, a: nat, root: RootSector,
                  log: seq<Write>, root': RootSector)
    requires Sized(c) && Standing(c, tpm, disk, keys, fixed, a, root)
    requires SyncLog(c, tpm, disk, keys, fixed, a, root, log, root')
    requires WritesRoot(a, log) && !Try(c, tpm, Apply(disk, log), fixed, 1 - a).Rejected?
    ensures FindRoot(c, tpm, Apply(disk, log), 1 - a) == Some(Candidate(keys, root'))
  {
    hide LoadRoot, Reached;
    var whole := Apply(disk, log);
    ReadApply(disk, log, 1 - a);
    ReadWritten(disk, log, 3 - a);
    var w :| w in log && w.sector == 3 - a && Read(whole, 3 - a) == w.blob;
    assert c.openRoot(keys.tm, Read(whole, 2 + (1 - a))) == Some(root');
  }
}
