/** The A/B disk layout of `airwaves-install` on x86, in MiB. */
module Layout {
  import opened Values

  const AWCFG_END_RESERVE_MIB: nat := 100

  datatype Partition = Partition(start: nat, end: nat)

  /** Partitions 1 to 5: ESP, slot A, slot B, data, AWCFG. */
  datatype Plan = Plan(diskMib: nat, esp: Partition, rootA: Partition, rootB: Partition, data: Partition,
      awcfg: Partition)

  datatype LayoutError = BelowTwelveGib | TooSmallForSlots

  function Size(p: Partition): int {
    p.end - p.start
  }

  /** `ab_slot_mib`: 35% of the disk, clamped by two reassignments. */
  method AbSlotMib(bytes: nat) returns (slot: nat)
    ensures 4096 <= slot <= 12288
    ensures var third := bytes / 1024 / 1024 * 35 / 100;
      (slot == third || (third < 4096 && slot == 4096) || (third > 12288 && slot == 12288))
  {
    var mib := bytes / 1024 / 1024;
    slot := mib * 35 / 100;
    if slot < 4096 {
      slot := 4096;
    }
    if slot > 12288 {
      slot := 12288;
    }
  }

  /** What an accepted layout looks like: in order, touching but disjoint, inside the disk, with equal slots. */
  predicate Sound(p: Plan) {
    && 1 <= p.esp.start < p.esp.end <= p.rootA.start < p.rootA.end <= p.rootB.start < p.rootB.end
    && p.rootB.end <= p.data.start < p.data.end <= p.awcfg.start < p.awcfg.end <= p.diskMib
    && Size(p.rootA) == Size(p.rootB) && 4300 <= Size(p.rootA) <= 12288
    && Size(p.esp) == 512 && Size(p.awcfg) == AWCFG_END_RESERVE_MIB
    && Size(p.data) >= 3074
  }

  function Partitions(p: Plan): seq<Partition> {
    [p.esp, p.rootA, p.rootB, p.data, p.awcfg]
  }

  /** On the disk, no partition is empty and no two overlap; the slots are equal and large enough. */
  lemma SoundPlanIsDisjoint(p: Plan, i: nat, j: nat)
    requires Sound(p) && i < j < 5
    ensures 1 <= Partitions(p)[i].start < Partitions(p)[i].end <= Partitions(p)[j].start
    ensures Partitions(p)[j].start < Partitions(p)[j].end <= p.diskMib
    ensures p.rootA.end - p.rootA.start == p.rootB.end - p.rootB.start >= 4300
    ensures p.esp.end - p.esp.start == 512 && p.data.end - p.data.start >= 3074
    ensures p.rootA.end - p.rootA.start <= 12288 && p.awcfg.end - p.awcfg.start == AWCFG_END_RESERVE_MIB
  {
  }

  /** `partition_x86_ab`, up to the first write to the disk. */
  method PartitionX86Ab(bytes: nat) returns (r: Result<Plan, LayoutError>)
    ensures r.Ok? <==> bytes >= 12288 * 1024 * 1024
    ensures r.Err? ==> r.error == BelowTwelveGib
    ensures r.Ok? ==> Sound(r.value) && r.value.diskMib == bytes / 1024 / 1024
  {
    var slot := AbSlotMib(bytes);
    var diskMib := bytes / 1024 / 1024;
    MibOfBytes(bytes);
    var espEnd := 513;
    var aEnd := espEnd + slot;
    var bEnd := aEnd + slot;
    if diskMib < 12288 {
      return Err(BelowTwelveGib);
    }
    SlotShare(diskMib, slot);
    if bEnd + 1024 + AWCFG_END_RESERVE_MIB >= diskMib {
      assert false;
      return Err(TooSmallForSlots);
    }
    r := Ok(Plan(diskMib, Partition(1, espEnd), Partition(513, aEnd), Partition(aEnd, bEnd),
                 Partition(bEnd, diskMib - AWCFG_END_RESERVE_MIB),
                 Partition(diskMib - AWCFG_END_RESERVE_MIB, diskMib)));
  }

  lemma MibOfBytes(bytes: nat)
    ensures bytes / 1024 / 1024 >= 12288 <==> bytes >= 12288 * 1024 * 1024
  {
  }

  /** Two slots never take more than 70% of a disk of at least 12 GiB. */
  lemma SlotShare(mib: nat, slot: nat)
    requires mib >= 12288
    requires slot == mib * 35 / 100 || (mib * 35 / 100 < 4096 && slot == 4096)
      || (mib * 35 / 100 > 12288 && slot == 12288)
    ensures 4300 <= slot <= mib * 35 / 100 && 200 * slot <= 70 * mib
    ensures 513 + 2 * slot + 1024 + AWCFG_END_RESERVE_MIB < mib
    ensures mib - AWCFG_END_RESERVE_MIB - 513 - 2 * slot >= 3074
  {
  }
}
