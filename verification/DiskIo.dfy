/**
 The block device and the allocation table that both root slots share.  A cell of the table holds
 one bit per slot; a dynamic sector is free when neither slot uses it.
 */
module DiskIo {
  import opened DiskFormat
  import opened Crash

  /** active_slot. */
  function SlotBit(slot: nat): (b: bv8)
    requires slot < 2
  {
    if slot == 0 then 1 else 2
  }

  predicate Dynamic(s: Sector) {
    FIRST_DYNAMIC_SECTOR <= s < DISK_MAX_SECTOR
  }

  class Device {
    /** The table, and the byte that follows it in memory: marking sector DISK_MAX_SECTOR passes the
        bound test and lands there. */
    const inuse: array<bv8>
    var disk: Disk
    /** Every sector write since the device was opened. */
    ghost var log: seq<Write>
    /** The sectors whose cell carries the bit of slot 0, of slot 1. */
    ghost var used: seq<set<Sector>>

    ghost predicate Valid()
      reads this, inuse
    {
      && inuse.Length == DISK_MAX_SECTOR + 1
      && |used| == 2
      && (forall s :: s in used[0] || s in used[1] ==> s <= DISK_MAX_SECTOR)
      && (forall s :: 0 <= s <= DISK_MAX_SECTOR ==>
            && inuse[s] <= 3
            && (s in used[0] <==> inuse[s] & 1 != 0)
            && (s in used[1] <==> inuse[s] & 2 != 0))
    }

    constructor (disk: Disk)
      ensures Valid() && fresh(inuse) && this.disk == disk && log == [] && used == [{}, {}]
    {
      inuse := new bv8[DISK_MAX_SECTOR + 1](_ => 0);
      this.disk := disk;
      log, used := [], [{}, {}];
    }

    /** disk_set_used: sectors beyond the table are ignored. */
    method SetUsed(s: Sector, slot: nat)
      requires Valid() && slot < 2
      modifies this`used, inuse
      ensures Valid()
      ensures used[1 - slot] == old(used)[1 - slot]
      ensures used[slot] == old(used)[slot] + if s <= DISK_MAX_SECTOR then {s} else {}
    {
      if s > DISK_MAX_SECTOR {
        return;
      }
      inuse[s] := inuse[s] | SlotBit(slot);
      used := used[slot := used[slot] + {s}];
    }

    /** disk_flush_slot: the slot gives up its dynamic sectors. */
    method FlushSlot(slot: nat)
      requires Valid() && slot < 2
      modifies this`used, inuse
      ensures Valid()
      ensures used[1 - slot] == old(used)[1 - slot]
      ensures forall s :: s in used[slot] <==> s in old(used)[slot] && !Dynamic(s)
    {
      var i := FIRST_DYNAMIC_SECTOR;
      while i < DISK_MAX_SECTOR
        invariant FIRST_DYNAMIC_SECTOR <= i <= DISK_MAX_SECTOR
        invariant Valid()
        invariant used[1 - slot] == old(used)[1 - slot]
        invariant forall s :: s in used[slot] <==> s in old(used)[slot] && !(FIRST_DYNAMIC_SECTOR <= s < i)
      {
        inuse[i] := inuse[i] & !SlotBit(slot);
        used := used[slot := used[slot] - {i}];
        i := i + 1;
      }
    }

    /** disk_find_free: the first dynamic sector that no slot uses; the C code aborts if there is none. */
    method FindFree(slot: nat) returns (ok: bool, s: Sector)
      requires Valid() && slot < 2
      modifies this`used, inuse
      ensures Valid()
      ensures ok <==> exists f :: Dynamic(f) && f !in old(used)[0] + old(used)[1]
      ensures !ok ==> used == old(used)
      ensures ok ==> && Dynamic(s) && s !in old(used)[0] + old(used)[1]
                     && (forall t :: FIRST_DYNAMIC_SECTOR <= t < s ==> t in old(used)[0] + old(used)[1])
                     && used[1 - slot] == old(used)[1 - slot]
                     && used[slot] == old(used)[slot] + {s}
    {
      var i := FIRST_DYNAMIC_SECTOR;
      while i < DISK_MAX_SECTOR
        invariant FIRST_DYNAMIC_SECTOR <= i <= DISK_MAX_SECTOR
        invariant forall t :: FIRST_DYNAMIC_SECTOR <= t < i ==> t in used[0] + used[1]
      {
        if inuse[i] == 0 {
          assert Dynamic(i) && i !in used[0] + used[1];
          inuse[i] := SlotBit(slot);
          used := used[slot := used[slot] + {i}];
          return true, i;
        }
        i := i + 1;
      }
      return false, 0;
    }

    method WriteSector(s: Sector, b: Blob)
      modifies this`disk, this`log
      ensures disk == old(disk)[s := b] && log == old(log) + [Write(s, b)]
    {
      disk := disk[s := b];
      log := log + [Write(s, b)];
    }

    /** The tail of disk_write_crypt_sector: allocate a sector and write to it. */
    method WriteFree(slot: nat, b: Blob) returns (ok: bool, s: Sector)
      requires Valid() && slot < 2
      modifies this, inuse
      ensures Valid()
      ensures ok <==> exists f :: Dynamic(f) && f !in old(used)[0] + old(used)[1]
      ensures !ok ==> used == old(used) && disk == old(disk) && log == old(log)
      ensures ok ==> && Dynamic(s) && s !in old(used)[0] + old(used)[1]
                     && used[1 - slot] == old(used)[1 - slot]
                     && used[slot] == old(used)[slot] + {s}
                     && disk == old(disk)[s := b] && log == old(log) + [Write(s, b)]
    {
      ok, s := FindFree(slot);
      if ok {
        WriteSector(s, b);
      }
    }
  }
}
