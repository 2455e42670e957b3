/**
 The vTPM manager's disk format: sector contents, the in-memory records they are read into, and
 the primitives that turn one into the other.

 Encryption, authentication and hashing enter as the functions of a `Codec`; unsealing by the
 hardware TPM enters as a `Tpm`.  Nothing is assumed about them beyond what a lemma states.
 */
module DiskFormat {
  import opened Wrappers
  import opened Bytes

  type Blob = seq<Byte>
  type Digest = seq<Byte>
  type Mac = seq<Byte>
  type Key = seq<Byte>
  type Sector = nat
  type Disk = map<Sector, Blob>

  const ENTRIES_PER_ROOT: nat := 16
  const ENTRIES_PER_GROUP: nat := 16
  const ENTRIES_PER_ITREE: nat := 112
  const VTPMS_PER_SECTOR: nat := 48
  const RB_MACS_PER_ROOT: nat := 128
  const SEALS_PER_GROUP: nat := 5
  const DISK_MAX_SECTOR: nat := 0x200
  const FIRST_DYNAMIC_SECTOR: nat := 4

  /** Positions are multiplied by 4096 in 32 bits, so sector numbers wrap at 2^20.  A sector that was
      never written reads as an empty blob. */
  function Read(disk: Disk, s: Sector): (b: Blob) {
    var at := s % 0x10_0000;
    if at in disk then disk[at] else []
  }

  /* Sector contents. */

  datatype VtpmHeader = VtpmHeader(uuid: Blob, flags: nat)

  datatype PageData = PageData(headers: seq<VtpmHeader>, body: Blob)
  type PageSector = p: PageData | |p.headers| == VTPMS_PER_SECTOR
    witness PageData(seq(VTPMS_PER_SECTOR, _ => VtpmHeader([], 0)), [])

  datatype ItreeData = ItreeData(locs: seq<Sector>, hashes: seq<Digest>)
  type ItreeSector = t: ItreeData | |t.locs| == |t.hashes| == ENTRIES_PER_ITREE
    witness ItreeData(seq(ENTRIES_PER_ITREE, _ => 0), seq(ENTRIES_PER_ITREE, _ => []))

  datatype Details = Details(sequence: nat, rollback: bool, other: Blob)

  /** The part of a group sector that the group's own MAC covers. */
  datatype GroupArea = GroupArea(id: Blob, details: Details, boot: Blob, nrVtpms: nat, hashes: seq<Digest>)
  datatype GroupData = GroupData(area: GroupArea, mac: Mac, locs: seq<Sector>)
  type GroupSector = g: GroupData | |g.area.hashes| == |g.locs| == ENTRIES_PER_GROUP
    witness GroupData(GroupArea([], Details(0, false, []), [], 0, seq(ENTRIES_PER_GROUP, _ => [])), [],
                      seq(ENTRIES_PER_GROUP, _ => 0))

  /** The part of a root sector that the rollback MACs cover. */
  datatype RootArea = RootArea(sequence: nat, counter: nat, nrGroups: nat, hashes: seq<Digest>)
  datatype MacEntry = MacEntry(id: nat, mac: Mac)
  datatype RootData = RootData(area: RootArea, locs: seq<Sector>, nrMacs: nat, macs: seq<MacEntry>)
  type RootSector = r: RootData
    | |r.area.hashes| == |r.locs| == ENTRIES_PER_ROOT && |r.macs| == RB_MACS_PER_ROOT
    witness RootData(RootArea(0, 0, 0, seq(ENTRIES_PER_ROOT, _ => [])), seq(ENTRIES_PER_ROOT, _ => 0), 0,
                     seq(RB_MACS_PER_ROOT, _ => MacEntry(0, [])))

  /* In-memory records.  A location of 0 means that the copy on disk is out of date. */

  datatype Vtpm = Vtpm(uuid: Blob, data: Blob, flags: nat, index: nat)
  datatype Page = Page(hash: Digest, loc: Sector, vtpms: seq<Vtpm>)
  datatype GroupKeys = GroupKeys(group: Key, rollback: Key, other: Blob)
  datatype Group = Group(id: Blob, details: Details, keys: GroupKeys, nrVtpms: nat, pages: seq<Page>,
                         nrSeals: nat, sealValid: bool, boot: Blob)
  datatype GroupHdr = GroupHdr(loc: Sector, hash: Digest, inuse: seq<Sector>, v: Option<Group>)
  datatype RootKeys = RootKeys(tm: Key, uuid: Blob, other: Blob)
  datatype Manager = Manager(keys: RootKeys, counter: nat, sequence: nat, activeRoot: nat,
                             groups: seq<GroupHdr>)

  /** The codec of the disk: `seal` is encryption with a random IV followed by the sector MAC, `open`
      is MAC verification followed by decryption and reinterpretation of the bytes.  A seal list is not
      encrypted; sealBoot is what the TPM makes of a group's keys for its configurations. */
  datatype Codec = Codec(
    sealPage: (Key, Blob, PageSector) -> Blob, openPage: (Key, Blob) -> Option<PageSector>,
    sealItree: (Key, Blob, ItreeSector) -> Blob, openItree: (Key, Blob) -> Option<ItreeSector>,
    sealGroup: (Key, Blob, GroupSector) -> Blob, openGroup: (Key, Blob) -> Option<GroupSector>,
    sealRoot: (Key, Blob, RootSector) -> Blob, openRoot: (Key, Blob) -> Option<RootSector>,
    sealList: seq<Blob> -> Blob, openList: Blob -> Option<seq<Blob>>, sealBoot: (GroupKeys, nat, Blob) -> Blob,
    wrap: (Key, Blob, seq<Blob>) -> Blob, unwrap: (Key, Blob) -> seq<Blob>,
    hashPage: PageSector -> Digest, hashItree: seq<Digest> -> Digest, hashGroup: (GroupArea, Mac) -> Digest,
    macGroup: (Key, GroupArea) -> Mac, macRoot: (Key, RootArea) -> Mac)

  /** What is sealed can be opened again with the same key. */
  ghost predicate Faithful(c: Codec) {
    && (forall k, r, x :: c.openPage(k, c.sealPage(k, r, x)) == Some(x))
    && (forall k, r, x :: c.openItree(k, c.sealItree(k, r, x)) == Some(x))
    && (forall k, r, x :: c.openGroup(k, c.sealGroup(k, r, x)) == Some(x))
    && (forall k, r, x :: c.openRoot(k, c.sealRoot(k, r, x)) == Some(x))
    && (forall e :: c.openList(c.sealList(e)) == Some(e))
    && (forall k, r, x: seq<Blob> :: |x| == VTPMS_PER_SECTOR ==> c.unwrap(k, c.wrap(k, r, x)) == x)
    && (forall k, b :: |c.unwrap(k, b)| == VTPMS_PER_SECTOR)
  }

  /** No two of the given blobs, opened with the given key, collide under the hash. */
  ghost predicate NoCollision(c: Codec, key: Key, blobs: set<Blob>) {
    && (forall a, b :: a in blobs && b in blobs && c.openPage(key, a).Some? && c.openPage(key, b).Some?
          && c.hashPage(c.openPage(key, a).value) == c.hashPage(c.openPage(key, b).value)
          ==> c.openPage(key, a) == c.openPage(key, b))
    && (forall a, b :: a in blobs && b in blobs && c.openItree(key, a).Some? && c.openItree(key, b).Some?
          && c.hashItree(c.openItree(key, a).value.hashes) == c.hashItree(c.openItree(key, b).value.hashes)
          ==> c.openItree(key, a).value.hashes == c.openItree(key, b).value.hashes)
    && (forall a, b :: a in blobs && b in blobs && c.openGroup(key, a).Some? && c.openGroup(key, b).Some?
          && c.hashGroup(c.openGroup(key, a).value.area, c.openGroup(key, a).value.mac)
             == c.hashGroup(c.openGroup(key, b).value.area, c.openGroup(key, b).value.mac)
          ==> c.openGroup(key, a).value.area == c.openGroup(key, b).value.area
              && c.openGroup(key, a).value.mac == c.openGroup(key, b).value.mac)
  }

  /** Everything a disk can return. */
  function Blobs(disk: Disk): (r: set<Blob>) {
    disk.Values + {[]}
  }

  lemma ReadIsBlob(disk: Disk, s: Sector)
    ensures Read(disk, s) in Blobs(disk)
  {
  }

  datatype Unseal = Opened(keys: GroupKeys, nrSeals: nat) | Locked | Broken

  /** The hardware TPM and its platform state when the disk is loaded. */
  datatype Tpm = Tpm(unsealEntry: Blob -> Option<RootKeys>, unsealGroup: (Blob, Blob) -> Unseal,
                     counterOk: nat -> bool)

  /** The first entry of a seal list that opens. */
  function FirstOpen(open: Blob -> Option<RootKeys>, entries: seq<Blob>): (r: Option<RootKeys>) {
    if entries == [] then None
    else if open(entries[0]).Some? then open(entries[0])
    else FirstOpen(open, entries[1..])
  }

  /** Which one that is. */
  lemma {:induction false} FirstOpenAt(open: Blob -> Option<RootKeys>, entries: seq<Blob>, i: nat)
    requires i <= |entries| && forall j :: 0 <= j < i ==> open(entries[j]).None?
    ensures i == |entries| ==> FirstOpen(open, entries) == None
    ensures i < |entries| && open(entries[i]).Some? ==> FirstOpen(open, entries) == open(entries[i])
  {
    if i > 0 {
      FirstOpenAt(open, entries[1..], i - 1);
    }
  }

  /** What the TPM makes of a seal list. */
  function UnsealRoot(c: Codec, tpm: Tpm, list: Blob): (r: Option<RootKeys>) {
    var entries := c.openList(list);
    if entries.None? then None else FirstOpen(tpm.unsealEntry, entries.value)
  }

  /** Number of pages that hold n vTPMs. */
  function PagesFor(n: nat): (r: nat)
    ensures n <= r * VTPMS_PER_SECTOR < n + VTPMS_PER_SECTOR
  {
    (n + VTPMS_PER_SECTOR - 1) / VTPMS_PER_SECTOR
  }
}
