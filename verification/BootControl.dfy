/** The boot control block in the misc partition: saving it, and checking it when it is loaded. */
module BootControl {
  import opened Basics
  import opened RangeSets
  import opened Crc32

  /** Where the block is in the partition, its size, and the part its checksum covers. */
  const BLOCK_OFFSET: nat := 2048
  const CONTROL_SIZE: nat := 32
  const COVERED: nat := 28
  const MAX_SLOTS: nat := 4
  const NB_SLOT_AT: nat := 9
  const SLOT_INFO_AT: nat := 12

  /** What looking for a slot's boot partition tells. */
  datatype Probe = Found | Missing | Unknown

  class Misc {
    var bytes: seq<bv8>
    /** An I/O call has failed. */
    ghost var broken: bool

    constructor (bytes: seq<bv8>)
      ensures this.bytes == bytes && !broken
    {
      this.bytes := bytes;
      broken := false;
    }

    /** Whether the I/O calls of a load or a save succeed. */
    method Call() returns (ok: bool)
      modifies this`broken
      ensures broken == (old(broken) || !ok)
    {
      ok := *;
      broken := broken || !ok;
    }
  }

  // ---------- the fields ----------

  function ReadLE(b: seq<bv8>): bv32
    requires |b| == 4
  {
    (b[0] as bv32) | ((b[1] as bv32) << 8) | ((b[2] as bv32) << 16) | ((b[3] as bv32) << 24)
  }

  function WriteLE(v: bv32): (b: seq<bv8>)
    ensures |b| == 4
  {
    [(v & 0xFF) as bv8, ((v >> 8) & 0xFF) as bv8, ((v >> 16) & 0xFF) as bv8, ((v >> 24) & 0xFF) as bv8]
  }

  /** The number is stored least significant byte first. */
  lemma LowByteFirst()
    ensures WriteLE(0x0102_0304) == [4, 3, 2, 1]
  {
  }

  lemma ReadWriteLE(v: bv32)
    ensures ReadLE(WriteLE(v)) == v
  {
  }

  function NbSlot(block: seq<bv8>): bv8
    requires |block| >= COVERED
  {
    block[NB_SLOT_AT] & 7
  }

  /** The block passes the check of the loader. */
  ghost predicate Intact(block: seq<bv8>) {
    |block| == CONTROL_SIZE && ReadLE(block[COVERED..]) == BitSerialCrc(block[..COVERED])
  }

  ghost predicate HasBlock(bytes: seq<bv8>) {
    BLOCK_OFFSET + CONTROL_SIZE <= |bytes|
  }

  ghost function BlockOf(bytes: seq<bv8>): seq<bv8>
    requires HasBlock(bytes)
  {
    bytes[BLOCK_OFFSET..BLOCK_OFFSET + CONTROL_SIZE]
  }

  /** The covered part with its checksum. */
  function Sealed(covered: seq<bv8>): seq<bv8> {
    covered + WriteLE(BitSerialCrc(covered))
  }

  lemma SealedIsIntact(covered: seq<bv8>)
    requires |covered| == COVERED
    ensures Intact(Sealed(covered)) && Sealed(covered)[..COVERED] == covered
  {
    hide BitSerialCrc, ReadLE, WriteLE;
    ReadWriteLE(BitSerialCrc(covered));
    assert Sealed(covered)[COVERED..] == WriteLE(BitSerialCrc(covered));
  }

  /** A change confined to four consecutive covered bytes never goes unnoticed. */
  lemma TamperingIsNoticed(block: seq<bv8>, other: seq<bv8>, i: nat)
    requires Intact(block) && |other| == CONTROL_SIZE && other[COVERED..] == block[COVERED..] && other != block
    requires forall k :: 0 <= k < COVERED && !(i <= k < i + 4) ==> other[k] == block[k]
    ensures !Intact(other)
  {
    hide BitSerialCrc, ReadLE;
    var a, b := block[..COVERED], other[..COVERED];
    assert block == a + block[COVERED..] && other == b + other[COVERED..];
    BurstDetected(a, b, i);
  }

  // ---------- the number of slots ----------

  /** The slots before n are there, as far as is known, and none from n on. */
  ghost predicate SlotsEndAt(probes: seq<Probe>, n: nat)
    requires |probes| == MAX_SLOTS
  {
    && 0 < n < MAX_SLOTS && probes[n - 1].Found? && probes[n].Missing?
    && (forall k :: 0 <= k < n ==> !probes[k].Missing?) && (forall k :: n <= k < MAX_SLOTS ==> !probes[k].Found?)
  }

  /** The slots found, if they are the first ones; otherwise the maximum. */
  method CountSlots(probes: seq<Probe>) returns (nbSlot: nat)
    requires |probes| == MAX_SLOTS
    ensures 0 < nbSlot <= MAX_SLOTS
    ensures forall n :: 0 < n < MAX_SLOTS ==> (nbSlot == n <==> SlotsEndAt(probes, n))
  {
    nbSlot := MAX_SLOTS;
    var lastExistingSlot, firstMissingSlot := -1, -1;
    var slot := 0;
    while slot < MAX_SLOTS
      invariant 0 <= slot <= MAX_SLOTS && -1 <= lastExistingSlot < slot && -1 <= firstMissingSlot < slot
      invariant lastExistingSlot >= 0 ==> probes[lastExistingSlot].Found?
      invariant forall k :: lastExistingSlot < k < slot ==> !probes[k].Found?
      invariant firstMissingSlot >= 0 ==> probes[firstMissingSlot].Missing?
      invariant forall k :: 0 <= k < (if firstMissingSlot == -1 then slot else firstMissingSlot) ==> !probes[k].Missing?
    {
      if probes[slot].Found? {
        lastExistingSlot := slot;
      } else if probes[slot].Missing? && firstMissingSlot == -1 {
        firstMissingSlot := slot;
      }
      slot := slot + 1;
    }
    if (lastExistingSlot != -1 && lastExistingSlot + 1 == firstMissingSlot)
      || (firstMissingSlot == -1 && lastExistingSlot + 1 == MAX_SLOTS)
    {
      nbSlot := lastExistingSlot + 1;
    }
  }

  // ---------- the module ----------

  /** Bits of a slot's entry. */
  function Priority(entry: bv8): bv8 { entry & 0x0F }
  function Tries(entry: bv8): bv8 { (entry >> 4) & 0x07 }
  function Successful(entry: bv8): bv8 { entry >> 7 }

  /** A slot that is there has priority 7 and seven tries, any other is unbootable; only the current slot
      has booted. */
  ghost predicate IsEntry(entry: bv8, present: bool, current: bool) {
    && Priority(entry) == (if present then 7 else 0) && Tries(entry) == (if present then 7 else 0)
    && Successful(entry) == if current then 1 else 0
  }

  lemma SlotEntryIs(present: bool, current: bool)
    ensures var entry: bv8 := if present then 0x77 else 0;
            IsEntry(if current then entry | 0x80 else entry, present, current)
  {
  }

  lemma LetterIs(slot: nat)
    ensures slot < MAX_SLOTS ==> [0x61, 0x62, 0x63, 0x64][slot] as bv8 == 0x61 + slot as bv8
  {
  }

  class Module {
    var initialized: bool
    var numSlots: bv8
    const table: Table

    constructor (table: Table)
      ensures !initialized && this.table == table
    {
      initialized, numSlots, this.table := false, 0, table;
    }

    method LoadBootloaderControl(misc: Misc) returns (block: Option<seq<bv8>>)
      modifies misc`broken
      ensures block.Some? ==>
                HasBlock(misc.bytes) && block.value == BlockOf(misc.bytes) && misc.broken == old(misc.broken)
      ensures block.None? ==> misc.broken || !HasBlock(misc.bytes)
    {
      var ok := misc.Call();
      if !ok || |misc.bytes| < BLOCK_OFFSET + CONTROL_SIZE { return None; }
      return Some(misc.bytes[BLOCK_OFFSET..BLOCK_OFFSET + CONTROL_SIZE]);
    }

    /** Seal the block and write it; what was saved passes the check.  A write that fails may have
        written a part of the block. */
    method UpdateAndSaveBootloaderControl(misc: Misc, covered: seq<bv8>) returns (ok: bool)
      requires table.Valid() && |covered| == COVERED && HasBlock(misc.bytes)
      modifies misc, table
      ensures table.Valid() && HasBlock(misc.bytes) && misc.broken == (old(misc.broken) || !ok)
      ensures ok ==> BlockOf(misc.bytes) == Sealed(covered) && Intact(BlockOf(misc.bytes))
      ensures |misc.bytes| == |old(misc.bytes)|
      ensures forall p :: 0 <= p < |misc.bytes| && !(BLOCK_OFFSET <= p < BLOCK_OFFSET + CONTROL_SIZE) ==>
                misc.bytes[p] == old(misc.bytes)[p]
    {
      hide BitSerialCrc, ReadLE, WriteLE, Intact;
      var crc := table.CRC32(covered);
      SealedIsIntact(covered);
      var block := covered + WriteLE(crc);
      ok := misc.Call();
      var n := CONTROL_SIZE;
      if !ok { n :| 0 <= n <= CONTROL_SIZE; }
      misc.bytes := misc.bytes[..BLOCK_OFFSET] + block[..n] + misc.bytes[BLOCK_OFFSET + n..];
      if ok { assert BlockOf(misc.bytes) == Sealed(covered); }
    }

    /** The covered part of a new block. */
    method InitDefaultBootloaderControl(currentSlot: nat, probes: seq<Probe>) returns (covered: seq<bv8>, nbSlot: nat)
      requires |probes| == MAX_SLOTS
      ensures |covered| == COVERED && nbSlot <= MAX_SLOTS && NbSlot(covered) == nbSlot as bv8
      ensures forall n :: 0 < n < MAX_SLOTS ==> (nbSlot == n <==> SlotsEndAt(probes, n))
      // The suffix of the current slot, the magic number, the version, and the entries of the slots.
      ensures covered[..4] == if currentSlot < MAX_SLOTS then [0x5f, 0x61 + currentSlot as bv8, 0, 0] else [0, 0, 0, 0]
      ensures covered[4..9] == [0x42, 0x43, 0x41, 0x42, 1] && covered[10..12] == [0, 0]
      ensures covered[20..] == [0, 0, 0, 0, 0, 0, 0, 0]
      ensures forall s :: 0 <= s < MAX_SLOTS ==>
                && IsEntry(covered[SLOT_INFO_AT + 2 * s], s < nbSlot, s == currentSlot)
                && covered[SLOT_INFO_AT + 2 * s + 1] == 0
    {
      hide IsEntry;
      nbSlot := CountSlots(probes);
      var letters: seq<bv8> := [0x61, 0x62, 0x63, 0x64];
      var suffix: seq<bv8> := if currentSlot < MAX_SLOTS then [0x5f, letters[currentSlot], 0, 0] else [0, 0, 0, 0];
      covered := suffix + [0x42, 0x43, 0x41, 0x42, 1, nbSlot as bv8, 0, 0];
      ghost var front := covered;
      LetterIs(currentSlot);
      var slot := 0;
      while slot < MAX_SLOTS
        invariant 0 <= slot <= MAX_SLOTS && |covered| == SLOT_INFO_AT + 2 * slot && covered[NB_SLOT_AT] == nbSlot as bv8
        invariant covered[..12] == front
        invariant forall s :: 0 <= s < slot ==>
                    && IsEntry(covered[SLOT_INFO_AT + 2 * s], s < nbSlot, s == currentSlot)
                    && covered[SLOT_INFO_AT + 2 * s + 1] == 0
      {
        // Priority 7 and seven tries, or unbootable.
        var entry: bv8 := if slot < nbSlot then 0x77 else 0;
        if currentSlot == slot { entry := entry | 0x80; }
        SlotEntryIs(slot < nbSlot, currentSlot == slot);
        covered := covered + [entry, 0];
        slot := slot + 1;
      }
      covered := covered + [0, 0, 0, 0, 0, 0, 0, 0];
      SlotBits(nbSlot);
      assert covered[..4] == front[..4] && covered[4..9] == front[4..9] && covered[10..12] == front[10..12];
    }

    /** The first call loads the block: an intact one is used and left alone, any other is replaced by
        one for the slots that were found. */
    method LazyInitialization(misc: Misc, currentSlot: nat, probes: seq<Probe>) returns (ok: bool)
      requires table.Valid() && |probes| == MAX_SLOTS && !misc.broken
      modifies this, misc, table
      ensures table.Valid() && |misc.bytes| == |old(misc.bytes)| && (ok ==> initialized)
      ensures old(initialized) ==> ok && misc.bytes == old(misc.bytes) && numSlots == old(numSlots)
      ensures !ok ==> misc.bytes == old(misc.bytes) && (misc.broken || !HasBlock(misc.bytes))
      ensures ok && !old(initialized) ==> HasBlock(misc.bytes)
      ensures ok && !old(initialized) && Intact(BlockOf(old(misc.bytes))) ==>
                misc.bytes == old(misc.bytes) && numSlots == NbSlot(BlockOf(misc.bytes))
      ensures ok && !old(initialized) && !Intact(BlockOf(old(misc.bytes))) ==>
                && (!misc.broken ==> Intact(BlockOf(misc.bytes)) && numSlots == NbSlot(BlockOf(misc.bytes)))
                && forall n :: 0 < n < MAX_SLOTS ==> (numSlots as int == n <==> SlotsEndAt(probes, n))
      ensures forall p :: 0 <= p < |misc.bytes| && !(BLOCK_OFFSET <= p < BLOCK_OFFSET + CONTROL_SIZE) ==>
                misc.bytes[p] == old(misc.bytes)[p]
    {
      hide BitSerialCrc, ReadLE, WriteLE, SlotsEndAt;
      if initialized { return true; }
      var loaded := LoadBootloaderControl(misc);
      if loaded.None? { return false; }
      var block := loaded.value;
      initialized := true;
      var computed := table.CRC32(block[..COVERED]);
      if ReadLE(block[COVERED..]) != computed {
        var covered, n := InitDefaultBootloaderControl(currentSlot, probes);
        SealedIsIntact(covered);
        var saved := UpdateAndSaveBootloaderControl(misc, covered);
        block := Sealed(covered);
        SmallValue(n);
      }
      numSlots := NbSlot(block);
      return true;
    }
  }

  lemma SmallValue(n: nat)
    requires n <= MAX_SLOTS
    ensures (n as bv8) as int == n
  {
  }

  lemma SlotBits(n: nat)
    requires 0 < n <= MAX_SLOTS
    ensures (n as bv8) & 7 == n as bv8
  {
  }
}
