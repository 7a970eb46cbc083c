/** The host-side switch of components/app_update/otatool.py, a second implementation of
    the same decision on the raw bytes of the otadata partition. */
module OtaTool {
  import opened Arith
  import opened Bytes
  import opened OtaSelect
  import opened Wrappers

  // Layout of an entry: sequence number, a 20-byte label, state, CRC of the sequence number.
  const SEQ_AT: nat := 0
  const STATE_AT: nat := 24
  const CRC_AT: nat := 28
  const ENTRY_SIZE: nat := 32

  function Field(raw: seq<byte>, at: nat): (v: u32)
    requires at + 4 <= |raw|
  {
    FromLe32(raw[at..at + 4])
  }

  function EntryAt(raw: seq<byte>, start: nat): (e: Entry)
    requires start + ENTRY_SIZE <= |raw|
  {
    Entry(Field(raw, start + SEQ_AT), Field(raw, start + STATE_AT), Field(raw, start + CRC_AT))
  }

  /** The two entries of a partition image whose sectors are `half` bytes each. */
  function Entries(raw: seq<byte>, half: nat): (two: Otadata)
    requires ENTRY_SIZE <= half && 2 * half <= |raw|
  {
    [EntryAt(raw, 0), EntryAt(raw, half)]
  }

  /** is_otadata_info_valid; it does not look at the state. */
  predicate InfoValid(d: Device, e: Entry)
  {
    e.seqNo < UINT32_MAX && e.crc == d.crc(e.seqNo)
  }

  /** The entry that the new sequence number is computed from, or -1. */
  function Base(d: Device, two: Otadata): (i: int)
    ensures i in {-1, 0, 1}
  {
    if InfoValid(d, two[0]) && InfoValid(d, two[1]) then if two[0].seqNo >= two[1].seqNo then 0 else 1
    else if InfoValid(d, two[0]) then 0
    else if InfoValid(d, two[1]) then 1
    else -1
  }

  function ToolSeq(d: Device, two: Otadata, slot: nat): nat
    requires slot < d.Slots()
  {
    var b := Base(d, two);
    if b == -1 then slot + 1 else Next(two[b].seqNo, (slot + 1) % d.Slots(), d.Slots())
  }

  function ToolSector(d: Device, two: Otadata): nat
  {
    if Base(d, two) == 0 then 1 else 0
  }

  /** The image with the sequence number and the CRC of one sector replaced. */
  function WithSeq(raw: seq<byte>, start: nat, v: u32, crc: u32): (image: seq<byte>)
    requires start + ENTRY_SIZE <= |raw|
    ensures |image| == |raw|
  {
    Patch(Patch(raw, start + SEQ_AT, Le32(v)), start + CRC_AT, Le32(crc))
  }

  lemma FieldOfPatch(raw: seq<byte>, at: nat, v: u32)
    requires at + 4 <= |raw|
    ensures Field(Patch(raw, at, Le32(v)), at) == v
  {
    FromLe32Le32(v);
    assert Patch(raw, at, Le32(v))[at..at + 4] == Le32(v);
  }

  lemma FieldBesidePatch(raw: seq<byte>, at: nat, v: u32, other: nat)
    requires at + 4 <= |raw| && other + 4 <= |raw| && (other + 4 <= at || at + 4 <= other)
    ensures Field(Patch(raw, at, Le32(v)), other) == Field(raw, other)
  {
    assert Patch(raw, at, Le32(v))[other..other + 4] == raw[other..other + 4];
  }

  /** Writing the sequence number and CRC of one entry keeps its state. */
  lemma WrittenEntry(raw: seq<byte>, start: nat, v: u32, crc: u32)
    requires start + ENTRY_SIZE <= |raw|
    ensures EntryAt(WithSeq(raw, start, v, crc), start) == Entry(v, EntryAt(raw, start).state, crc)
  {
    var once := Patch(raw, start + SEQ_AT, Le32(v));
    FieldOfPatch(raw, start + SEQ_AT, v);
    FieldOfPatch(once, start + CRC_AT, crc);
    FieldBesidePatch(raw, start + SEQ_AT, v, start + STATE_AT);
    FieldBesidePatch(once, start + CRC_AT, crc, start + STATE_AT);
    FieldBesidePatch(once, start + CRC_AT, crc, start + SEQ_AT);
  }

  lemma EntryBeside(raw: seq<byte>, at: nat, v: u32, other: nat)
    requires at + 4 <= |raw| && other + ENTRY_SIZE <= |raw|
    requires other + ENTRY_SIZE <= at || at + 4 <= other
    ensures EntryAt(Patch(raw, at, Le32(v)), other) == EntryAt(raw, other)
  {
    FieldBesidePatch(raw, at, v, other + SEQ_AT);
    FieldBesidePatch(raw, at, v, other + STATE_AT);
    FieldBesidePatch(raw, at, v, other + CRC_AT);
  }

  /** It does not touch an entry elsewhere. */
  lemma OtherEntry(raw: seq<byte>, start: nat, v: u32, crc: u32, other: nat)
    requires start + ENTRY_SIZE <= |raw| && other + ENTRY_SIZE <= |raw|
    requires other + ENTRY_SIZE <= start || start + ENTRY_SIZE <= other
    ensures EntryAt(WithSeq(raw, start, v, crc), other) == EntryAt(raw, other)
  {
    EntryBeside(raw, start + SEQ_AT, v, other);
    EntryBeside(Patch(raw, start + SEQ_AT, Le32(v)), start + CRC_AT, crc, other);
  }

  lemma WrittenSector(raw: seq<byte>, half: nat, sec: nat, v: u32, crc: u32)
    requires ENTRY_SIZE <= half && 2 * half <= |raw| && sec < 2
    ensures Entries(WithSeq(raw, if sec == 1 then half else 0, v, crc), half)
         == Entries(raw, half)[sec := Entry(v, Entries(raw, half)[sec].state, crc)]
  {
    if sec == 1 {
      WrittenEntry(raw, half, v, crc);
      OtherEntry(raw, half, v, crc, 0);
    } else {
      WrittenEntry(raw, 0, v, crc);
      OtherEntry(raw, 0, v, crc, half);
    }
  }

  /** OtatoolTarget._get_otadata_info */
  method GetOtadataInfo(raw: seq<byte>, half: nat) returns (info: seq<(u32, u32)>)
    requires ENTRY_SIZE <= half && 2 * half <= |raw|
    ensures var two := Entries(raw, half);
            info == [(two[0].seqNo, two[0].crc), (two[1].seqNo, two[1].crc)]
  {
    info := [];
    for i := 0 to 2
      invariant |info| == i
      invariant i >= 1 ==> info[0] == (Entries(raw, half)[0].seqNo, Entries(raw, half)[0].crc)
      invariant i >= 2 ==> info[1] == (Entries(raw, half)[1].seqNo, Entries(raw, half)[1].crc)
    {
      var start := if i == 0 then 0 else half;
      info := info + [(Field(raw, start + SEQ_AT), Field(raw, start + CRC_AT))];
    }
  }

  /** The sequence loop of switch_ota_partition, on unbounded integers. */
  method FindSeqUnbounded(base: nat, slot: nat, n: nat) returns (v: nat)
    requires slot < n
    ensures v == Next(base, (slot + 1) % n, n)
  {
    var c := (slot + 1) % n;
    ghost var goal := Next(base, c, n);
    NextIsLeast(base, c, n);
    var i: nat := 0;
    ModAdd(0, n, c);
    ModAtMost(goal, n);
    while base > c + n * i
      invariant c + n * i <= goal && (n * i + c) % n == c
      decreases goal - n * i
    {
      SameRemainder(n * i + c, goal, n);
      MulNext(n, i);
      i := i + 1;
      ModAdd(i, n, c);
    }
    v := c + n * i;
  }

  /** The partition image that switch_ota_partition writes, or None if it raises: there is
      no such slot, or the sequence number does not fit 32 bits. */
  method SwitchOtaPartition(d: Device, raw: seq<byte>, half: nat, slot: nat)
    returns (image: Option<seq<byte>>)
    requires ENTRY_SIZE <= half && 2 * half <= |raw|
    ensures image.Some? <==> slot < d.Slots() && ToolSeq(d, Entries(raw, half), slot) < TWO_32
    ensures image.Some? ==>
              var two := Entries(raw, half);
              var sec, v := ToolSector(d, two), ToolSeq(d, two, slot);
              && |image.value| == |raw|
              && Entries(image.value, half) == two[sec := Entry(v, two[sec].state, d.crc(v))]
  {
    var slots := CountSlots(d);
    if slots == 0 || slot >= slots {
      return None;
    }
    var info := GetOtadataInfo(raw, half);
    var base := ComputeBase(d, info);
    var v := PickSeq(info, base, slot, slots);
    if v >= TWO_32 {
      return None;
    }
    WrittenSector(raw, half, if base == 0 then 1 else 0, v, d.crc(v));
    image := Some(WithSeq(raw, if base == 0 then half else 0, v, d.crc(v)));
  }

  /** The OTA slots of the partition table, up to the first gap. */
  method CountSlots(d: Device) returns (slots: nat)
    ensures slots == d.Slots()
  {
    slots := 0;
    while slots < 16 && Ota(slots) in d.apps
      invariant slots <= d.Slots()
    {
      slots := slots + 1;
    }
  }

  method PickSeq(info: seq<(u32, u32)>, base: int, slot: nat, slots: nat) returns (v: nat)
    requires |info| == 2 && base in {-1, 0, 1} && slot < slots
    ensures v == if base == -1 then slot + 1 else Next(info[base].0, (slot + 1) % slots, slots)
  {
    v := slot + 1;
    if base == 0 || base == 1 {
      v := FindSeqUnbounded(info[base].0, slot, slots);
    }
  }

  /** The copy to compute from, out of the numbers and CRCs that were read. */
  method ComputeBase(d: Device, info: seq<(u32, u32)>) returns (base: int)
    requires |info| == 2
    ensures base == Base(d, [Entry(info[0].0, 0, info[0].1), Entry(info[1].0, 0, info[1].1)])
  {
    var valid := [info[0].0 < UINT32_MAX && info[0].1 == d.crc(info[0].0),
                  info[1].0 < UINT32_MAX && info[1].1 == d.crc(info[1].0)];
    base := -1;
    if valid[0] && valid[1] {
      if info[0].0 >= info[1].0 {
        base := 0;
      } else {
        base := 1;
      }
    } else if valid[0] {
      base := 0;
    } else if valid[1] {
      base := 1;
    }
  }

  /** The two implementations agree on sector and sequence number, for every slot, when
      neither entry was marked INVALID or ABORTED. */
  lemma ToolsAgree(d: Device, two: Otadata, slot: nat)
    requires slot < d.Slots()
    requires forall i :: 0 <= i < 2 ==> two[i].state != IMG_INVALID && two[i].state != IMG_ABORTED
    ensures ToolSector(d, two) == SwitchSector(d, two)
    ensures ToolSeq(d, two, slot) == SwitchSeq(d, two, slot)
  {
    assert InfoValid(d, two[0]) == d.Usable(two[0]) && InfoValid(d, two[1]) == d.Usable(two[1]);
  }

  /** An entry that the device skips although its number and CRC are in order. */
  predicate Rejected(e: Entry)
  {
    e.state == IMG_INVALID || e.state == IMG_ABORTED
  }

  /** Entry `i` is in order and has the larger number, state aside. */
  predicate Leads(d: Device, two: Otadata, i: nat)
    requires i < 2
  {
    && InfoValid(d, two[i])
    && (InfoValid(d, two[1 - i]) ==> if i == 0 then two[0].seqNo >= two[1].seqNo else two[1].seqNo > two[0].seqNo)
  }

  lemma BaseLeads(d: Device, two: Otadata)
    ensures Base(d, two) == (if Leads(d, two, 0) then 0 else if Leads(d, two, 1) then 1 else -1)
    ensures forall i :: 0 <= i < 2 ==> (d.Usable(two[i]) <==> InfoValid(d, two[i]) && !Rejected(two[i]))
  {
  }

  /** The two choose different sectors in exactly two cases: entry 0 leads but was rejected, or
      entry 0 is usable and entry 1 leads but was rejected. */
  lemma SectorsDiffer(d: Device, two: Otadata)
    ensures ToolSector(d, two) != SwitchSector(d, two) <==>
            || (Leads(d, two, 0) && Rejected(two[0]))
            || (Leads(d, two, 1) && Rejected(two[1]) && InfoValid(d, two[0]) && !Rejected(two[0]))
  {
    BaseLeads(d, two);
  }

  /** How far the next suitable number lies above a number with the remainder `r`. */
  function Distance(r: nat, c: nat, n: nat): nat
    requires r < n && c < n
  {
    if c >= r then c - r else c + n - r
  }

  /** They choose the same number if and only if both compute from the same entry, or the
      entry that leads is not above the number of a first switch, or, where the device computes
      from the other entry, no suitable number lies between the two. */
  lemma NumbersAgree(d: Device, two: Otadata, slot: nat)
    requires slot < d.Slots() && ToolCounted(d, two)
    ensures ToolSeq(d, two, slot) == SwitchSeq(d, two, slot) <==>
            var b, a, n := Base(d, two), d.Active(two), d.Slots();
            || b == -1 || b == a
            || (a == -1 && slot + 1 >= two[b].seqNo)
            || (a != -1 && Distance(two[a].seqNo % n, (slot + 1) % n, n) >= two[b].seqNo - two[a].seqNo)
  {
    BaseLeads(d, two);
    var b, a := Base(d, two), d.Active(two);
    if b != -1 {
      assert Leads(d, two, b) && !Leads(d, two, 1 - b);
      if a != -1 {
        LeastBetween(two[a].seqNo, two[b].seqNo, (slot + 1) % d.Slots(), d.Slots());
      } else {
        FirstNumber(slot, two[b].seqNo, d.Slots());
      }
    }
  }

  /** The least suitable number from `low` on is that from `high` on, unless it is smaller. */
  lemma LeastBetween(low: nat, high: nat, c: nat, n: nat)
    requires c < n && low <= high
    ensures Next(low, c, n) == Next(high, c, n) <==> Next(low, c, n) >= high
  {
    NextIsLeast(low, c, n);
    NextIsLeast(high, c, n);
    var v, w := Next(low, c, n), Next(high, c, n);
    assert v % n == c && w % n == c;
  }

  /** The same for the number of a first switch. */
  lemma FirstNumber(slot: nat, base: nat, n: nat)
    requires slot < n && 1 <= base
    ensures Next(base, (slot + 1) % n, n) == slot + 1 <==> slot + 1 >= base
  {
    NextIsLeast(base, (slot + 1) % n, n);
    var v := Next(base, (slot + 1) % n, n);
    if v < slot + 1 {
      SameRemainder(v, slot + 1, n);
    }
    assert (slot + 1) % n == v % n;
  }

  /** The tool overwrites the only usable entry if and only if both are in order and the one
      that leads was rejected but the other one was not. */
  lemma OverwritesOnlyUsable(d: Device, two: Otadata)
    ensures var sec := ToolSector(d, two);
            d.Usable(two[sec]) && !d.Usable(two[1 - sec]) <==>
            && InfoValid(d, two[0]) && InfoValid(d, two[1])
            && (if two[0].seqNo >= two[1].seqNo then Rejected(two[0]) && !Rejected(two[1])
                else Rejected(two[1]) && !Rejected(two[0]))
  {
    BaseLeads(d, two);
  }

  /** Entries whose number and CRC are in order count from 1. */
  predicate ToolCounted(d: Device, two: Otadata)
  {
    forall i :: 0 <= i < 2 && InfoValid(d, two[i]) ==> two[i].seqNo >= 1
  }

  /** The image that the tool writes. */
  function ToolImage(d: Device, two: Otadata, slot: nat): Otadata
    requires slot < d.Slots() && ToolSeq(d, two, slot) < TWO_32
  {
    var sec, v := ToolSector(d, two), ToolSeq(d, two, slot);
    two[sec := Entry(v, two[sec].state, d.crc(v))]
  }

  /** The tool keeps the state of the entry that it overwrites. The device then boots the
      requested slot if and only if this state is not that of a rejected entry, or the device
      would boot the slot without the overwritten entry, too. */
  lemma ToolImageBoots(d: Device, two: Otadata, slot: nat)
    requires slot < d.Slots() && ToolCounted(d, two) && ToolSeq(d, two, slot) < UINT32_MAX
    ensures var sec := ToolSector(d, two);
            d.Boot(ToolImage(d, two, slot)) == Some(Ota(slot)) <==>
            !Rejected(two[sec]) || d.Boot(two[sec := ERASED]) == Some(Ota(slot))
  {
    BaseLeads(d, two);
    var sec, v, n := ToolSector(d, two), ToolSeq(d, two, slot), d.Slots();
    var now := ToolImage(d, two, slot);
    if Rejected(two[sec]) {
      SkippedEntry(d, two, sec, now[sec]);
    } else {
      if Base(d, two) != -1 {
        NextIsLeast(two[Base(d, two)].seqNo, (slot + 1) % n, n);
      }
      SlotOfRemainder(v, slot, n);
      BootActive(d, now, sec);
    }
  }

  /** A rejected entry decides nothing that an erased one would not. */
  lemma SkippedEntry(d: Device, two: Otadata, sec: nat, e: Entry)
    requires sec < 2 && Rejected(e)
    ensures d.Boot(two[sec := e]) == d.Boot(two[sec := ERASED])
  {
    if d.Slots() > 0 && d.Usable(two[1 - sec]) {
      BootActive(d, two[sec := e], 1 - sec);
      BootActive(d, two[sec := ERASED], 1 - sec);
    }
  }

  /** Two switches by the tool after one rejected update: the second one has no effect. */
  lemma SecondSwitchLost(d: Device, two: Otadata)
    requires d.Slots() == 2
    requires two[0] == Entry(5, IMG_VALID, d.crc(5)) && two[1] == Entry(6, IMG_INVALID, d.crc(6))
    ensures ToolSeq(d, two, 0) == 7
    ensures var once := ToolImage(d, two, 0);
            && d.Boot(once) == Some(Ota(0)) && ToolSeq(d, once, 1) == 8
            && d.Boot(ToolImage(d, once, 1)) == Some(Ota(0))
  {
    var once: Otadata := [Entry(7, IMG_VALID, d.crc(7)), two[1]];
    assert ToolImage(d, two, 0) == once;
    BootActive(d, once, 0);
    BootActive(d, ToolImage(d, once, 1), 0);
  }
}
