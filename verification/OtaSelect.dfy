/** Choosing the application to boot: components/app_update/esp_ota_ops.c and the entry
    checks of components/bootloader_support/src/bootloader_common_loader.c.

    Two flash sectors each hold one entry. A valid entry with the larger sequence number
    is active, and its number modulo the number of OTA slots selects the slot. A switch
    rewrites the sector that is not active. */
module OtaSelect {
  import opened Arith
  import opened Bytes
  import opened Wrappers

  const UINT32_MAX: u32 := 0xFFFF_FFFF

  const IMG_NEW: u32 := 0
  const IMG_PENDING_VERIFY: u32 := 1
  const IMG_VALID: u32 := 2
  const IMG_INVALID: u32 := 3
  const IMG_ABORTED: u32 := 4
  const IMG_UNDEFINED: u32 := UINT32_MAX

  datatype Entry = Entry(seqNo: u32, state: u32, crc: u32)

  const ERASED := Entry(UINT32_MAX, UINT32_MAX, UINT32_MAX)

  type Otadata = s: seq<Entry> | |s| == 2 witness [ERASED, ERASED]

  datatype App = Factory | Ota(slot: nat) | Test

  datatype Err = Ok | Fail | InvalidArg | ValidateFailed | RollbackFailed

  // ---- Sequence numbers ----

  /** The least number that is at least `base` and leaves the remainder `c` modulo `n`. */
  function Next(base: nat, c: nat, n: nat): (v: nat)
    requires c < n
  {
    if c >= base % n then base - base % n + c else base - base % n + c + n
  }

  lemma NextIsLeast(base: nat, c: nat, n: nat)
    requires c < n
    ensures var v := Next(base, c, n);
            && base <= v < base + n && v % n == c
            && forall w :: base <= w < v ==> w % n != c
  {
    var v, q := Next(base, c, n), base / n;
    assert base == n * q + base % n;
    ModAdd(q, n, c);
    ModAdd(q + 1, n, c);
    assert n * (q + 1) == n * q + n;
    forall w | base <= w < v
      ensures w % n != c
    {
      if w % n == c {
        SameRemainder(w, v, n);
      }
    }
  }

  /** The OTA slot of a sequence number: `(seq - 1) % count` on 32 bits. */
  function Slot(seqNo: u32, n: nat): (slot: nat)
    requires n > 0
    ensures slot < n
  {
    (if seqNo == 0 then UINT32_MAX else seqNo - 1) % n
  }

  lemma SlotOfRemainder(v: u32, slot: nat, n: nat)
    requires v >= 1 && slot < n && v % n == (slot + 1) % n
    ensures Slot(v, n) == slot
  {
    var q := v / n;
    assert v == n * q + v % n;
    if slot + 1 == n {
      ModAdd(0, n, 0);
      assert n % n == 0 by { ModAdd(1, n, 0); }
      assert q >= 1;
      assert n * (q - 1) == n * q - n;
      ModAdd(q - 1, n, n - 1);
    } else {
      ModAdd(0, n, slot + 1);
      ModAdd(q, n, slot);
    }
  }

  /** A sum or product truncated to 32 bits. */
  function Wrap32(x: nat): (r: u32)
    ensures r == x % TWO_32
  {
    if x < TWO_32 then x else x % TWO_32
  }

  /** The search loop of esp_rewrite_ota_data, on 32-bit numbers. It ends with the least
      suitable number, provided that this number exists on 32 bits. */
  method FindSeq(active: u32, slot: nat, n: nat) returns (v: u32)
    requires slot < n < 256
    requires Next(active, (slot + 1) % n, n) < TWO_32
    ensures v == Next(active, (slot + 1) % n, n)
  {
    var c := (slot + 1) % n;
    ghost var goal := Next(active, c, n);
    NextIsLeast(active, c, n);
    var i: nat := 0;
    ModAdd(0, n, c);
    ModAtMost(goal, n);
    while active > Wrap32(c + n * i)
      invariant c + n * i <= goal && (n * i + c) % n == c
      decreases goal - n * i
    {
      SameRemainder(n * i + c, goal, n);
      MulNext(n, i);
      i := i + 1;
      ModAdd(i, n, c);
    }
    v := Wrap32(c + n * i);
  }

  /** If that number does not exist and the slot count divides 2^32, the loop does not end:
      wrapped sums keep the remainder, and none of them reaches the active number. */
  lemma SearchEndless(active: u32, slot: nat, n: nat, i: nat)
    requires slot < n && n in {1, 2, 4, 8, 16}
    requires Next(active, (slot + 1) % n, n) >= TWO_32
    ensures active > Wrap32((slot + 1) % n + n * i)
  {
    var c := (slot + 1) % n;
    NextIsLeast(active, c, n);
    var x := c + n * i;
    ModAdd(i, n, c);
    WrapKeepsRemainder(x, n);
    assert Wrap32(x) % n == c;
  }

  lemma WrapKeepsRemainder(x: nat, n: nat)
    requires n in {1, 2, 4, 8, 16}
    ensures Wrap32(x) % n == x % n
  {
    var q := TWO_32 / n;
    assert TWO_32 == n * q;
    RemainderOfRemainder(x, n, q);
  }

  // ---- The device and its partition table ----

  /** What does not change at run time: the CRC of a sequence number, the applications in
      the partition table, the images that verify, and whether rollback is configured. */
  datatype Device = Device(crc: u32 -> u32, apps: set<App>, good: set<App>, rollback: bool) {

    /** The application partition with a given subtype, if the table has one. */
    function Find(subtype: nat): (app: Option<App>)
      ensures app.Some? ==> app.value in apps
    {
      var app := if subtype == 0 then Factory
                 else if 0x10 <= subtype < 0x20 then Ota(subtype - 0x10)
                 else Test;
      if app in apps && (subtype == 0 || 0x10 <= subtype <= 0x20) then Some(app) else None
    }

    /** The number of OTA slots: slots count only up to the first gap. */
    function SlotsFrom(k: nat): (n: nat)
      requires k <= 16
      ensures k <= n <= 16
      ensures forall j :: k <= j < n ==> Ota(j) in apps
      ensures n < 16 ==> Ota(n) !in apps
      decreases 16 - k
    {
      if k < 16 && Ota(k) in apps then SlotsFrom(k + 1) else k
    }

    function Slots(): nat
    {
      SlotsFrom(0)
    }

    /** The number of OTA partitions, gaps or not; this is what the boot loader counts. */
    function CountFrom(k: nat): (n: nat)
      requires k <= 16
      ensures n <= 16 - k
      decreases 16 - k
    {
      if k == 16 then 0 else (if Ota(k) in apps then 1 else 0) + CountFrom(k + 1)
    }

    function OtaCount(): nat
    {
      CountFrom(0)
    }

    /** An OTA partition behind a missing one. */
    predicate Gap()
    {
      exists k :: Slots() <= k < 16 && Ota(k) in apps
    }

    /** The subtype after the last OTA slot is that of the test application, so a table with
        sixteen slots and a test application is refused (by an assertion). */
    predicate TableOk() {
      !(Slots() == 16 && Test in apps)
    }

    /** esp_ota_get_app_partition_count */
    method AppCount() returns (n: nat)
      requires TableOk()
      ensures n == Slots()
    {
      n := 0;
      while Find(0x10 + n).Some?
        invariant n <= Slots()
        decreases 16 - n
      {
        assert n < 16;
        n := n + 1;
      }
    }

    /** find_default_boot_partition */
    function Default(): (app: Option<App>)
    {
      if Factory in apps then Some(Factory)
      else if exists k :: 0 <= k < 16 && Ota(k) in apps then Some(Ota(FirstOta(0)))
      else if Test in apps then Some(Test)
      else None
    }

    function FirstOta(k: nat): (slot: nat)
      requires exists j :: k <= j < 16 && Ota(j) in apps
      ensures Ota(slot) in apps && k <= slot < 16
      ensures forall j :: k <= j < slot ==> Ota(j) !in apps
      decreases 16 - k
    {
      if Ota(k) in apps then k else FirstOta(k + 1)
    }

    function NewState(): u32 {
      if rollback then IMG_NEW else IMG_UNDEFINED
    }

    /** bootloader_common_ota_select_invalid; it does not look at the CRC. */
    predicate Discarded(e: Entry) {
      e.seqNo == UINT32_MAX || e.state == IMG_INVALID || e.state == IMG_ABORTED
    }

    /** bootloader_common_ota_select_valid */
    predicate Usable(e: Entry) {
      !Discarded(e) && e.crc == crc(e.seqNo)
    }

    /** bootloader_common_select_otadata with the larger sequence number, on the entries
        that bootloader_common_get_active_otadata considers. */
    function Active(two: Otadata): (i: int)
      ensures i == -1 <==> !Usable(two[0]) && !Usable(two[1])
      ensures i != -1 ==> 0 <= i < 2 && Usable(two[i])
                          && (Usable(two[1 - i]) ==> two[i].seqNo >= two[1 - i].seqNo)
    {
      if Usable(two[0]) && Usable(two[1])
      then if two[0].seqNo >= two[1].seqNo then 0 else 1
      else if Usable(two[0]) then 0
      else if Usable(two[1]) then 1
      else -1
    }

    /** esp_ota_get_boot_partition */
    function Boot(two: Otadata): (app: Option<App>)
    {
      if (Discarded(two[0]) && Discarded(two[1])) || Slots() == 0 then Default()
      else
        var a := Active(two);
        if a != -1 then Find(0x10 + Slot(two[a].seqNo, Slots())) else Default()
    }

    /** The entry that a switch writes. */
    function NewEntry(v: u32): Entry {
      Entry(v, NewState(), crc(v))
    }

    /** Sequence numbers of usable entries count from 1. */
    predicate Counted(two: Otadata) {
      forall i :: 0 <= i < 2 && Usable(two[i]) ==> two[i].seqNo >= 1
    }
  }

  /** Without a decision in otadata the factory application boots, else the first OTA slot that
      there is, else the test application. */
  lemma DefaultPrefers(d: Device, k: nat)
    requires k < 16
    ensures d.Default() == Some(Factory) <==> Factory in d.apps
    ensures d.Default() == Some(Ota(k)) <==>
            Factory !in d.apps && Ota(k) in d.apps && forall j :: 0 <= j < k ==> Ota(j) !in d.apps
    ensures d.Default() == Some(Test) <==>
            Factory !in d.apps && Test in d.apps && forall j :: 0 <= j < 16 ==> Ota(j) !in d.apps
  {
  }

  lemma BootActive(d: Device, two: Otadata, i: nat)
    requires i < 2 && d.Slots() > 0 && d.Usable(two[i])
    requires d.Usable(two[1 - i]) ==> two[i].seqNo >= two[1 - i].seqNo
    ensures d.Boot(two) == Some(Ota(Slot(two[i].seqNo, d.Slots())))
  {
    var a := d.Active(two);
    assert two[a].seqNo == two[i].seqNo;
  }

  // ---- Switching ----

  /** The sequence number and the sector of a switch to `slot`. */
  function SwitchSector(d: Device, two: Otadata): (i: nat)
    ensures i < 2
  {
    if d.Active(two) == 0 then 1 else 0
  }

  function SwitchSeq(d: Device, two: Otadata, slot: nat): nat
    requires slot < d.Slots()
  {
    var a := d.Active(two);
    if a == -1 then slot + 1 else Next(two[a].seqNo, (slot + 1) % d.Slots(), d.Slots())
  }

  /** After the erase of a switch the device boots what it booted before. */
  lemma ErasedBootsOld(d: Device, two: Otadata)
    ensures d.Boot(two[SwitchSector(d, two) := ERASED]) == d.Boot(two)
  {
    var a := d.Active(two);
    if a != -1 && d.Slots() > 0 {
      BootActive(d, two, a);
      BootActive(d, two[SwitchSector(d, two) := ERASED], a);
    }
  }

  /** The new entry carries the largest number, and it selects the requested slot, unless the
      number is 0. */
  lemma NewestSlot(d: Device, two: Otadata, slot: nat)
    requires slot < d.Slots() && SwitchSeq(d, two, slot) < UINT32_MAX
    ensures var i, v := SwitchSector(d, two), SwitchSeq(d, two, slot);
            && d.Usable(d.NewEntry(v)) && (d.Usable(two[1 - i]) ==> v >= two[1 - i].seqNo)
            && (v >= 1 ==> Slot(v, d.Slots()) == slot)
            && (v == 0 <==> d.Active(two) != -1 && two[d.Active(two)].seqNo == 0 && slot + 1 == d.Slots())
  {
    var a, v, n := d.Active(two), SwitchSeq(d, two, slot), d.Slots();
    if a != -1 {
      NextIsLeast(two[a].seqNo, (slot + 1) % n, n);
      if slot + 1 == n {
        ModAdd(1, n, 0);
      } else {
        ModAdd(0, n, slot + 1);
        ModAdd(0, n, 0);
      }
    }
    if v >= 1 {
      SlotOfRemainder(v, slot, n);
    }
  }

  /** A switch to the last slot from an active entry with the number 0 writes the number 0
      again, and that selects the last slot only if the slot count divides 2^32. */
  predicate FromZero(d: Device, two: Otadata, slot: nat)
    requires d.Slots() > 0
  {
    && d.Active(two) != -1 && two[d.Active(two)].seqNo == 0
    && slot + 1 == d.Slots() && UINT32_MAX % d.Slots() != d.Slots() - 1
  }

  /** After the write of a switch the device boots the requested slot, except from zero. */
  lemma WrittenBootsIff(d: Device, two: Otadata, slot: nat)
    requires slot < d.Slots() && SwitchSeq(d, two, slot) < UINT32_MAX
    ensures var now := two[SwitchSector(d, two) := d.NewEntry(SwitchSeq(d, two, slot))];
            d.Boot(now) == Some(Ota(slot)) <==> !FromZero(d, two, slot)
  {
    var i, v := SwitchSector(d, two), SwitchSeq(d, two, slot);
    NewestSlot(d, two, slot);
    BootActive(d, two[i := d.NewEntry(v)], i);
  }

  /** Numbers that the device writes count from 1, and then there is no exception. */
  lemma WrittenBootsNew(d: Device, two: Otadata, slot: nat)
    requires slot < d.Slots() && d.Counted(two) && SwitchSeq(d, two, slot) < UINT32_MAX
    ensures var now := two[SwitchSector(d, two) := d.NewEntry(SwitchSeq(d, two, slot))];
            d.Counted(now) && d.Boot(now) == Some(Ota(slot))
  {
    NewestSlot(d, two, slot);
    WrittenBootsIff(d, two, slot);
  }

  /** `SUB_TYPE_ID`, the low four bits of a subtype; those of the test application are 0. */
  function SubTypeId(app: App): nat
    requires app != Factory
  {
    if app == Test then 0 else app.slot % 16
  }

  /** Whether esp_ota_set_boot_partition accepts an application of the table. */
  predicate Accepts(d: Device, app: App)
  {
    app in d.good && (app == Factory || SubTypeId(app) < d.Slots())
  }

  /** The otadata after an accepted switch. */
  function AfterSet(d: Device, two: Otadata, app: App): Otadata
    requires Accepts(d, app)
    requires app != Factory ==> SwitchSeq(d, two, SubTypeId(app)) < TWO_32
  {
    if app == Factory then [ERASED, ERASED]
    else two[SwitchSector(d, two) := d.NewEntry(SwitchSeq(d, two, SubTypeId(app)))]
  }

  /** A switch takes effect: the device boots the application that was set. The only
      exceptions are the test application, which has the low subtype bits of the first slot,
      and a switch from zero. */
  lemma SetThenGet(d: Device, two: Otadata, app: App)
    requires app in d.apps && Accepts(d, app) && (app.Ota? ==> app.slot < 16)
    requires app != Factory ==> SwitchSeq(d, two, SubTypeId(app)) < UINT32_MAX
    ensures d.Boot(AfterSet(d, two, app)) == Some(app) <==>
            app != Test && !(app.Ota? && FromZero(d, two, app.slot))
    ensures app == Test ==> d.Boot(AfterSet(d, two, app)) == Some(Ota(0))
  {
    if app != Factory {
      WrittenBootsIff(d, two, SubTypeId(app));
      if app == Test && d.Slots() == 1 {
        ModAdd(UINT32_MAX, 1, 0);
      }
    }
  }

  /** From a usable entry with the number 0, a switch to the last slot works exactly for the
      slot counts that are powers of two. */
  lemma SetFromZero(d: Device, two: Otadata, slot: nat)
    requires d.Usable(two[0]) && two[0].seqNo == 0 && !d.Usable(two[1])
    requires slot + 1 == d.Slots()
    ensures SwitchSeq(d, two, slot) == 0
    ensures d.Boot(two[SwitchSector(d, two) := d.NewEntry(0)]) == Some(Ota(slot)) <==>
            d.Slots() in {1, 2, 4, 8, 16}
  {
    var n := d.Slots();
    ModAdd(1, n, 0);
    ModAdd(0, n, 0);
    WrittenBootsIff(d, two, slot);
    DividesTwo32(n);
  }

  lemma DividesTwo32(n: nat)
    requires 0 < n <= 16
    ensures UINT32_MAX % n == n - 1 <==> n in {1, 2, 4, 8, 16}
  {
    if n <= 8 {
      SmallDivisors(n);
    }
  }

  lemma SmallDivisors(n: nat)
    requires 0 < n <= 8
    ensures UINT32_MAX % n == n - 1 <==> n in {1, 2, 4, 8}
  {
  }

  /** Resetting to the factory application erases one sector after the other. If power
      fails in between, the device boots the old or the new application unless the erased
      sector was active and the other one is usable and selects another slot. */
  lemma FactoryErasedHalfway(d: Device, two: Otadata)
    requires Factory in d.apps
    ensures d.Boot(two[0 := ERASED]) in {d.Boot(two), Some(Factory)} <==>
            !(d.Slots() > 0 && d.Active(two) == 0 && d.Usable(two[1])
              && Slot(two[1].seqNo, d.Slots()) != Slot(two[0].seqNo, d.Slots()))
  {
    if d.Slots() > 0 && d.Usable(two[1]) {
      BootActive(d, two[0 := ERASED], 1);
    }
    if d.Slots() > 0 && d.Active(two) != -1 {
      BootActive(d, two, d.Active(two));
    }
  }

  // ---- Confirming and rejecting the running application ----

  /** The application that esp_ota_check_rollback_is_possible finds in order. */
  function RollbackTarget(d: Device, two: Otadata): (app: Option<App>)
    ensures app.Some? ==> app.value in d.good
  {
    var a := d.Active(two);
    if d.Slots() == 0 || a == -1 then None
    else
      var app := if d.Usable(two[1 - a]) then d.Find(0x10 + Slot(two[1 - a].seqNo, d.Slots())) else d.Find(0);
      if app.Some? && app.value in d.good then app else None
  }

  /** A rollback is possible if and only if some slot decides what boots, and without its entry
      the device boots an application with a good image: that of the other entry, or, if this
      is not usable, the factory application. */
  lemma RollbackPossibleIff(d: Device, two: Otadata)
    ensures RollbackTarget(d, two).Some? <==> CanRollBack(d, two)
    ensures CanRollBack(d, two) ==> RollbackTarget(d, two) == d.Boot(two[d.Active(two) := ERASED])
  {
    var a := d.Active(two);
    if a != -1 && d.Slots() > 0 && d.Usable(two[1 - a]) {
      BootActive(d, two[a := ERASED], 1 - a);
    }
  }

  predicate CanRollBack(d: Device, two: Otadata)
  {
    var a := d.Active(two);
    && a != -1 && d.Slots() > 0 && (d.Usable(two[1 - a]) || Factory in d.apps)
    && d.Boot(two[a := ERASED]).Some? && d.Boot(two[a := ERASED]).value in d.good
  }

  function WithState(d: Device, two: Otadata, i: nat, state: u32): Otadata
    requires i < 2
  {
    two[i := Entry(two[i].seqNo, state, d.crc(two[i].seqNo))]
  }

  /** The otadata after the running application was confirmed. */
  function AfterConfirm(d: Device, two: Otadata): Otadata
  {
    var a := d.Active(two);
    if a != -1 && d.Slots() > 0 && two[a].state != IMG_VALID then WithState(d, two, a, IMG_VALID) else two
  }

  /** The otadata after the running application was rejected. */
  function AfterReject(d: Device, two: Otadata): Otadata
  {
    if RollbackTarget(d, two).Some? then WithState(d, two, d.Active(two), IMG_INVALID) else two
  }

  /** A confirmation marks the active entry as valid, changes nothing else, and does not
      change what boots. */
  lemma ConfirmKeepsBoot(d: Device, two: Otadata)
    ensures d.Boot(AfterConfirm(d, two)) == d.Boot(two)
    ensures var a, now := d.Active(two), AfterConfirm(d, two);
            if a == -1 || d.Slots() == 0 then now == two
            else now[1 - a] == two[1 - a] && now[a] == Entry(two[a].seqNo, IMG_VALID, d.crc(two[a].seqNo))
  {
    var a := d.Active(two);
    if a != -1 && d.Slots() > 0 {
      BootActive(d, two, a);
      BootActive(d, AfterConfirm(d, two), a);
    }
  }

  /** Rollback is sound, also if power fails after the erase: what boots next is the very
      application whose image was checked. The active entry is marked as invalid, and the other
      one is kept; where no rollback is possible, nothing changes. */
  lemma RejectBootsTarget(d: Device, two: Otadata)
    ensures var a, now := d.Active(two), AfterReject(d, two);
            if CanRollBack(d, two) then
              && now[1 - a] == two[1 - a] && now[a] == Entry(two[a].seqNo, IMG_INVALID, d.crc(two[a].seqNo))
              && RollbackTarget(d, two).Some? && d.Boot(now) == RollbackTarget(d, two)
              && d.Boot(two[a := ERASED]) == RollbackTarget(d, two)
            else now == two
  {
    RollbackPossibleIff(d, two);
    var a := d.Active(two);
    if CanRollBack(d, two) && d.Usable(two[1 - a]) {
      BootActive(d, AfterReject(d, two), 1 - a);
      BootActive(d, two[a := ERASED], 1 - a);
    }
  }

  /** The otadata after esp_ota_invalidate_inactive_ota_data_slot, with which esp_ota_begin
      ends if rollback is configured: the other entry is erased unless it belongs to the
      running application. */
  function AfterInvalidate(d: Device, two: Otadata, running: App): Otadata
  {
    var a := d.Active(two);
    if a != -1 && d.Slots() > 0 && two[1 - a].seqNo != UINT32_MAX
       && two[1 - a].crc == d.crc(two[1 - a].seqNo) && Ota(Slot(two[1 - a].seqNo, d.Slots())) != running
    then two[1 - a := ERASED] else two
  }

  /** It does not change what boots, but takes away what a rollback would return to, unless
      this is the running application. */
  lemma InvalidateKeepsBoot(d: Device, two: Otadata, running: App)
    ensures d.Boot(AfterInvalidate(d, two, running)) == d.Boot(two)
    ensures var a, now := d.Active(two), AfterInvalidate(d, two, running);
            RollbackTarget(d, now) !=
              (if a != -1 && d.Slots() > 0 && Factory in d.apps && Factory in d.good then Some(Factory) else None)
            ==> a != -1 && d.Usable(two[1 - a]) && Ota(Slot(two[1 - a].seqNo, d.Slots())) == running && now == two
  {
    var a := d.Active(two);
    if a != -1 && d.Slots() > 0 {
      BootActive(d, two, a);
      BootActive(d, AfterInvalidate(d, two, running), a);
    }
  }

  // ---- The boot loader ----

  /** The application that bootloader_utility_get_selected_boot_partition selects. It need
      not be in the table: its slot number is taken modulo the number of OTA partitions,
      while the application counts up to the first gap only. */
  function Chosen(d: Device, two: Otadata): App
  {
    if (d.Discarded(two[0]) && d.Discarded(two[1])) || d.OtaCount() == 0 then
      if Factory in d.apps then Factory else Ota(0)
    else
      var a := d.Active(two);
      if a != -1 then Ota(Slot(two[a].seqNo, d.OtaCount())) else Factory
  }

  lemma {:induction false} CountAndGap(d: Device, k: nat)
    requires k <= 16
    ensures d.CountFrom(k) >= d.SlotsFrom(k) - k
    ensures d.CountFrom(k) > d.SlotsFrom(k) - k <==> exists j :: d.SlotsFrom(k) <= j < 16 && Ota(j) in d.apps
    decreases 16 - k
  {
    if k < 16 {
      CountAndGap(d, k + 1);
      if Ota(k) !in d.apps {
        CountIsPresence(d, k + 1);
      }
    }
  }

  lemma {:induction false} CountIsPresence(d: Device, k: nat)
    requires k <= 16
    ensures d.CountFrom(k) > 0 <==> exists j :: k <= j < 16 && Ota(j) in d.apps
    decreases 16 - k
  {
    if k < 16 {
      CountIsPresence(d, k + 1);
    }
  }

  lemma BootActiveChoice(d: Device, two: Otadata, a: nat)
    requires d.Active(two) == a
    ensures d.OtaCount() > 0 ==> Chosen(d, two) == Ota(Slot(two[a].seqNo, d.OtaCount()))
    ensures d.Slots() > 0 ==> d.Boot(two) == Some(Ota(Slot(two[a].seqNo, d.Slots())))
    ensures d.Slots() == 0 ==> d.Boot(two) == d.Default()
  {
    if d.Slots() > 0 {
      BootActive(d, two, a);
    }
  }

  /** When the application and the boot loader agree on what boots: without a decision in
      otadata there has to be a factory application, or at least the first slot if both
      entries are discarded; with one, both counts have to give the same slot. */
  lemma BootloaderAgrees(d: Device, two: Otadata)
    ensures d.Boot(two) == Some(Chosen(d, two)) <==>
            var a := d.Active(two);
            if (d.Discarded(two[0]) && d.Discarded(two[1])) || d.OtaCount() == 0 then
              Factory in d.apps || Ota(0) in d.apps
            else if a == -1 then Factory in d.apps
            else if d.Slots() == 0 then d.Default() == Some(Ota(Slot(two[a].seqNo, d.OtaCount())))
            else Slot(two[a].seqNo, d.Slots()) == Slot(two[a].seqNo, d.OtaCount())
  {
    CountAndGap(d, 0);
    CountIsPresence(d, 0);
    if d.Active(two) != -1 {
      BootActiveChoice(d, two, d.Active(two));
    }
  }

  /** With at least one slot, they agree on every decision if and only if no OTA partition
      follows a gap in the table. Behind a gap, the sequence number after the last slot that
      the application counts selects slot 0 for the application but not for the loader. */
  lemma BootloaderAgreesIffNoGap(d: Device)
    requires d.Slots() > 0
    ensures (forall two: Otadata :: d.Active(two) != -1 ==> d.Boot(two) == Some(Chosen(d, two))) <==> !d.Gap()
  {
    CountAndGap(d, 0);
    var n := d.Slots();
    if d.Gap() {
      var two: Otadata := [Entry(n + 1, IMG_VALID, d.crc(n + 1)), ERASED];
      ModAdd(1, n, 0);
      ModAdd(0, d.OtaCount(), n);
      BootloaderAgrees(d, two);
      assert d.Active(two) == 0 && d.Boot(two) != Some(Chosen(d, two));
    } else {
      forall two: Otadata | d.Active(two) != -1
        ensures d.Boot(two) == Some(Chosen(d, two))
      {
        BootloaderAgrees(d, two);
      }
    }
  }

  function Abort(e: Entry): Entry
  {
    if e.state == IMG_PENDING_VERIFY then e.(state := IMG_ABORTED) else e
  }

  /** With rollback configured, a boot first aborts unconfirmed applications. */
  function Aborted(d: Device, two: Otadata): Otadata
  {
    if d.rollback then [Abort(two[0]), Abort(two[1])] else two
  }

  predicate Initial(d: Device, e: Entry)
  {
    e.seqNo == UINT32_MAX || e.crc != d.crc(e.seqNo)
  }

  /** The otadata after a boot. A new application is marked as being on trial. Without a
      factory application and without any entry, an entry is written for the slot `loaded`
      whose image was started, if it is an OTA slot. */
  function AfterBoot(d: Device, before: Otadata, loaded: Option<nat>): Otadata
  {
    var two := Aborted(d, before);
    var a := d.Active(two);
    if (d.Discarded(two[0]) && d.Discarded(two[1])) || d.OtaCount() == 0 then
      if Factory !in d.apps && Initial(d, two[0]) && Initial(d, two[1])
         && loaded.Some? && loaded.value < 16 && Ota(loaded.value) in d.apps
      then two[0 := Entry(loaded.value + 1, IMG_VALID, d.crc(loaded.value + 1))] else two
    else if d.rollback && a != -1 && two[a].state == IMG_NEW
    then two[a := two[a].(state := IMG_PENDING_VERIFY)] else two
  }

  /** Nobody is on trial. */
  predicate Quiet(two: Otadata)
  {
    two[0].state != IMG_PENDING_VERIFY && two[1].state != IMG_PENDING_VERIFY
    && two[0].state != IMG_NEW && two[1].state != IMG_NEW
  }

  lemma ChosenActive(d: Device, two: Otadata, i: nat)
    requires i < 2 && d.OtaCount() > 0 && d.Usable(two[i])
    requires d.Usable(two[1 - i]) ==> two[i].seqNo >= two[1 - i].seqNo
    ensures Chosen(d, two) == Ota(Slot(two[i].seqNo, d.OtaCount()))
  {
    var a := d.Active(two);
    assert two[a].seqNo == two[i].seqNo;
  }

  lemma ConfirmKeepsChoice(d: Device, two: Otadata)
    ensures d.Active(two) != -1 ==> Chosen(d, AfterConfirm(d, two)) == Chosen(d, two)
  {
    var a := d.Active(two);
    if a != -1 && d.OtaCount() > 0 {
      ChosenActive(d, two, a);
      ChosenActive(d, AfterConfirm(d, two), a);
    }
  }

  /** An aborted entry leaves the choice to the other one. */
  lemma AbortFallsBack(d: Device, two: Otadata, i: nat, e: Entry)
    requires i == SwitchSector(d, two) && e.state == IMG_ABORTED
    requires Factory in d.apps || d.Active(two) != -1
    ensures Chosen(d, two[i := e]) == Chosen(d, two)
  {
    var a := d.Active(two);
    if a != -1 && d.OtaCount() > 0 {
      ChosenActive(d, two, a);
      ChosenActive(d, two[i := e], a);
    }
  }

  /** A new application has one attempt: the first boot after a switch selects the slot of its
      number; the next one selects what was selected before the switch, unless the
      application was confirmed in between. In a table without a gap that slot is the one
      that was requested. */
  lemma OneAttempt(d: Device, two: Otadata, slot: nat, loaded: Option<nat>)
    requires d.rollback && d.Counted(two) && Quiet(two)
    requires Factory in d.apps || d.Active(two) != -1
    requires slot < d.Slots() && SwitchSeq(d, two, slot) < UINT32_MAX
    ensures d.OtaCount() > 0
    ensures var v := SwitchSeq(d, two, slot);
            var first := two[SwitchSector(d, two) := d.NewEntry(v)];
            var trial := AfterBoot(d, first, loaded);
            var tried := Ota(Slot(v, d.OtaCount()));
            && Chosen(d, Aborted(d, first)) == tried
            && Chosen(d, Aborted(d, trial)) == Chosen(d, two)
            && Chosen(d, Aborted(d, AfterConfirm(d, trial))) == tried
            && (!d.Gap() ==> tried == Ota(slot))
  {
    CountAndGap(d, 0);
    var i, v := SwitchSector(d, two), SwitchSeq(d, two, slot);
    var first := two[i := d.NewEntry(v)];
    var trial := AfterBoot(d, first, loaded);
    assert Aborted(d, first) == first;
    NewestSlot(d, two, slot);
    ChosenActive(d, first, i);
    if d.Active(first) == i {
      TrialOnce(d, two, i, v, loaded);
    } else {
      ConfirmKeepsChoice(d, trial);
      assert trial == first && Aborted(d, AfterConfirm(d, first)) == AfterConfirm(d, first);
      ChosenActive(d, two, 1 - i);
    }
  }

  /** A new entry that is active is on trial after a boot. */
  lemma TrialOnce(d: Device, two: Otadata, i: nat, v: u32, loaded: Option<nat>)
    requires d.rollback && Quiet(two) && d.Slots() > 0 && d.OtaCount() > 0 && i == SwitchSector(d, two)
    requires Factory in d.apps || d.Active(two) != -1
    requires v != UINT32_MAX && d.Active(two[i := d.NewEntry(v)]) == i
    ensures var trial := AfterBoot(d, two[i := d.NewEntry(v)], loaded);
            && Chosen(d, Aborted(d, trial)) == Chosen(d, two)
            && Chosen(d, Aborted(d, AfterConfirm(d, trial))) == Ota(Slot(v, d.OtaCount()))
  {
    var first := two[i := d.NewEntry(v)];
    var trial := AfterBoot(d, first, loaded);
    assert Aborted(d, first) == first;
    assert trial == first[i := first[i].(state := IMG_PENDING_VERIFY)];
    ChosenActive(d, trial, i);
    ConfirmKeepsChoice(d, trial);
    assert Aborted(d, AfterConfirm(d, trial)) == AfterConfirm(d, trial);
    AbortFallsBack(d, two, i, Entry(v, IMG_ABORTED, d.crc(v)));
    assert Aborted(d, trial) == two[i := Entry(v, IMG_ABORTED, d.crc(v))];
  }

  /** The otadata after a number of boots; for each the slot whose image was started. */
  function AfterBoots(d: Device, two: Otadata, boots: seq<Option<nat>>): Otadata
    decreases boots
  {
    if boots == [] then two else AfterBoots(d, AfterBoot(d, two, boots[0]), boots[1..])
  }

  /** A confirmed application survives any number of boots: each of them selects it. */
  lemma {:induction false} ConfirmedSurvives(d: Device, two: Otadata, a: nat, boots: seq<Option<nat>>)
    requires d.OtaCount() > 0 && a == d.Active(two) && two[a].state == IMG_VALID
    ensures var now := AfterBoots(d, two, boots);
            Chosen(d, Aborted(d, now)) == Ota(Slot(two[a].seqNo, d.OtaCount()))
    decreases boots
  {
    var now := Aborted(d, two);
    assert now[a] == two[a] && d.Usable(now[a]) && (d.Usable(now[1 - a]) ==> d.Usable(two[1 - a]));
    assert now[1 - a].seqNo == two[1 - a].seqNo;
    assert d.Active(now) == a;
    if boots == [] {
      ChosenActive(d, now, a);
    } else {
      assert AfterBoot(d, two, boots[0]) == now;
      ConfirmedSurvives(d, now, a, boots[1..]);
    }
  }

  /** The first boot of a device without a factory application and without any entry: what
      the boot loader writes selects the slot whose image it has started, if and only if this
      slot is below the number of OTA partitions. */
  lemma FirstBootRecorded(d: Device, two: Otadata, slot: nat)
    requires Factory !in d.apps && slot < 16 && Ota(slot) in d.apps
    requires Initial(d, two[0]) && Initial(d, two[1]) && d.Discarded(two[0]) && d.Discarded(two[1])
    ensures var now := AfterBoot(d, two, Some(slot));
            && now[1] == Aborted(d, two)[1] && d.Usable(now[0])
            && (Chosen(d, Aborted(d, now)) == Ota(slot) <==> slot < d.OtaCount())
            && (d.Slots() > 0 ==> (d.Boot(now) == Some(Ota(slot)) <==> slot < d.Slots()))
  {
    var now := AfterBoot(d, two, Some(slot));
    FirstBootWrites(d, two, slot);
    FirstEntryDecides(d, Aborted(d, now), slot);
    FirstEntryDecides(d, now, slot);
  }

  lemma FirstBootWrites(d: Device, two: Otadata, slot: nat)
    requires Factory !in d.apps && slot < 16 && Ota(slot) in d.apps
    requires Initial(d, two[0]) && Initial(d, two[1]) && d.Discarded(two[0]) && d.Discarded(two[1])
    ensures d.OtaCount() > 0
    ensures var now := AfterBoot(d, two, Some(slot));
            && now[1] == Aborted(d, two)[1] && !d.Usable(now[1]) && !d.Usable(Aborted(d, now)[1])
            && now[0] == Aborted(d, now)[0] == Entry(slot + 1, IMG_VALID, d.crc(slot + 1))
  {
    CountIsPresence(d, 0);
  }

  /** Both counts, where only the first entry is usable. */
  lemma FirstEntryDecides(d: Device, two: Otadata, slot: nat)
    requires slot < 16 && d.OtaCount() > 0
    requires two[0] == Entry(slot + 1, IMG_VALID, d.crc(slot + 1)) && !d.Usable(two[1])
    ensures Chosen(d, two) == Ota(slot) <==> slot < d.OtaCount()
    ensures d.Slots() > 0 ==> (d.Boot(two) == Some(Ota(slot)) <==> slot < d.Slots())
  {
    ChosenActive(d, two, 0);
    RemainderIsSelf(slot, d.OtaCount());
    if d.Slots() > 0 {
      BootActive(d, two, 0);
      RemainderIsSelf(slot, d.Slots());
    }
  }

  lemma RemainderIsSelf(x: nat, n: nat)
    requires n > 0
    ensures x % n == x <==> x < n
  {
    if x < n {
      ModAdd(0, n, x);
    }
  }

  // ---- Whole runs ----

  /** A call, a boot, or a call during which power fails between two flash operations. */
  datatype Op =
    | Set(app: App)
    | Confirm
    | Reject
    | Invalidate(running: App)
    | Reboot(loaded: Option<nat>)
    | Cut(call: Op)

  function MaxSeq(d: Device, two: Otadata): (m: nat)
  {
    var a := d.Active(two);
    if a == -1 then 0 else two[a].seqNo
  }

  /** What one call or one boot does to the otadata; calls that are refused do nothing. */
  function Apply(d: Device, two: Otadata, op: Op): Otadata
    requires MaxSeq(d, two) + 16 < UINT32_MAX
  {
    match op
    case Set(app) => if Accepts(d, app) then SetBounded(d, two, app); AfterSet(d, two, app) else two
    case Confirm => AfterConfirm(d, two)
    case Reject => AfterReject(d, two)
    case Invalidate(running) => AfterInvalidate(d, two, running)
    case Reboot(loaded) => AfterBoot(d, two, loaded)
    case Cut(call) => if Rewrites(d, two, call) then two[Erased(d, two, call) := ERASED] else two
  }

  /** Whether a call touches the flash. */
  predicate Rewrites(d: Device, two: Otadata, call: Op)
  {
    match call
    case Set(app) => Accepts(d, app)
    case Confirm => d.Slots() > 0 && d.Active(two) != -1 && two[d.Active(two)].state != IMG_VALID
    case Reject => RollbackTarget(d, two).Some?
    case _ => false
  }

  /** The sector that a call erases first. */
  function Erased(d: Device, two: Otadata, call: Op): (i: nat)
    ensures i < 2
  {
    if call.Set? && call.app != Factory then SwitchSector(d, two)
    else if call.Set? || d.Active(two) == -1 then 0
    else d.Active(two)
  }

  lemma SetBounded(d: Device, two: Otadata, app: App)
    requires Accepts(d, app)
    ensures app != Factory ==> SwitchSeq(d, two, SubTypeId(app)) <= MaxSeq(d, two) + 16
  {
    var a, n := d.Active(two), d.Slots();
    if app != Factory && a != -1 {
      NextIsLeast(two[a].seqNo, (SubTypeId(app) + 1) % n, n);
    }
  }

  /** Every call keeps the numbers counting from 1 and raises the largest one by at most
      sixteen. */
  lemma ApplyKeeps(d: Device, two: Otadata, op: Op)
    requires d.Counted(two) && MaxSeq(d, two) + 16 < UINT32_MAX
    ensures d.Counted(Apply(d, two, op))
    ensures MaxSeq(d, Apply(d, two, op)) <= MaxSeq(d, two) + 16
  {
    if op.Set? && Accepts(d, op.app) && op.app != Factory {
      SetBounded(d, two, op.app);
      NewestSlot(d, two, SubTypeId(op.app));
    }
  }

  function Run(d: Device, two: Otadata, ops: seq<Op>): (end: Otadata)
    requires d.Counted(two) && MaxSeq(d, two) + 16 * |ops| < UINT32_MAX
    ensures d.Counted(end) && MaxSeq(d, end) <= MaxSeq(d, two) + 16 * |ops|
    decreases ops
  {
    if ops == [] then two
    else
      ApplyKeeps(d, two, ops[0]);
      Run(d, Apply(d, two, ops[0]), ops[1..])
  }

  /** Over whole runs from erased otadata, in any mix of switches, confirmations, rejections,
      boots and power failures during calls: a switch that is accepted takes effect at once,
      and unless it is to the factory application it is itself safe against such a failure. */
  lemma RunSetThenGet(d: Device, ops: seq<Op>, app: App)
    requires 16 * (|ops| + 1) < UINT32_MAX
    requires app in d.apps && app != Test && (app.Ota? ==> app.slot < 16) && Accepts(d, app)
    ensures var two := Run(d, [ERASED, ERASED], ops);
            && d.Boot(Apply(d, two, Set(app))) == Some(app)
            && (app.Ota? ==> d.Boot(Apply(d, two, Cut(Set(app)))) == d.Boot(two))
  {
    var two := Run(d, [ERASED, ERASED], ops);
    SetBounded(d, two, app);
    SetThenGet(d, two, app);
    ErasedBootsOld(d, two);
  }

  // ---- The calls ----

  /** The otadata partition in flash. The log keeps what it held after every flash
      operation, which is what a reset at that point leaves behind. */
  class OtadataPartition {
    const dev: Device
    var entry: Otadata
    ghost var log: seq<Otadata>

    constructor (dev: Device)
      requires dev.TableOk()
      ensures this.dev == dev && entry == [ERASED, ERASED] && log == []
    {
      this.dev := dev;
      entry := [ERASED, ERASED];
      log := [];
    }

    method EraseSector(i: nat)
      requires i < 2
      modifies this
      ensures entry == old(entry)[i := ERASED] && log == old(log) + [entry]
    {
      entry := entry[i := ERASED];
      log := log + [entry];
    }

    method WriteSector(i: nat, e: Entry)
      requires i < 2 && entry[i] == ERASED
      modifies this
      ensures entry == old(entry)[i := e] && log == old(log) + [entry]
    {
      entry := entry[i := e];
      log := log + [entry];
    }

    /** bootloader_common_get_active_otadata */
    method GetActive(two: Otadata) returns (active: int)
      ensures active == dev.Active(two)
    {
      var valid := [dev.Usable(two[0]), dev.Usable(two[1])];
      active := -1;
      if valid[0] && valid[1] {
        var most := if two[0].seqNo > two[1].seqNo then two[0].seqNo else two[1].seqNo;
        active := if most == two[0].seqNo then 0 else 1;
      } else {
        for i := 0 to 2
          invariant active == -1
          invariant (i >= 1 ==> !valid[0]) && (i >= 2 ==> !valid[1])
        {
          if valid[i] {
            active := i;
            break;
          }
        }
      }
    }

    /** rewrite_ota_seq */
    method RewriteOtaSeq(two: Otadata, seqNo: u32, sec: nat)
      requires sec < 2
      modifies this
      ensures var e := Entry(seqNo, two[sec].state, dev.crc(seqNo));
              && entry == old(entry)[sec := e]
              && log == old(log) + [old(entry)[sec := ERASED], entry]
    {
      EraseSector(sec);
      WriteSector(sec, Entry(seqNo, two[sec].state, dev.crc(seqNo)));
    }

    /** esp_rewrite_ota_data, for the subtype id of an application */
    method RewriteOtaData(id: nat) returns (err: Err)
      requires dev.TableOk()
      requires id < dev.Slots() ==> SwitchSeq(dev, entry, id) < TWO_32
      modifies this
      ensures err == Ok <==> id < dev.Slots()
      ensures err != Ok ==> entry == old(entry) && log == old(log)
      ensures err == Ok ==>
                var i := SwitchSector(dev, old(entry));
                && entry == old(entry)[i := dev.NewEntry(SwitchSeq(dev, old(entry), id))]
                && entry[i].state == (if dev.rollback then IMG_NEW else IMG_UNDEFINED)
                && log == old(log) + [old(entry)[i := ERASED], entry]
    {
      var two := entry;
      var n := dev.AppCount();
      if id >= n {
        return InvalidArg;
      }
      var active := GetActive(two);
      var seqNo, next := id + 1, 0;
      if active != -1 {
        seqNo := FindSeq(two[active].seqNo, id, n);
        next := 1 - active;
      }
      two := two[next := two[next].(state := dev.NewState())];
      RewriteOtaSeq(two, seqNo, next);
      err := Ok;
    }

    /** esp_ota_set_boot_partition. At every point where a reset could happen the device
        boots the old application until the last flash operation, and then the new one; for
        the factory application that holds for the end of the call. */
    method SetBootPartition(app: App) returns (err: Err)
      requires dev.TableOk() && app in dev.apps && (app.Ota? ==> app.slot < 16)
      requires Accepts(dev, app) && app != Factory ==> SwitchSeq(dev, entry, SubTypeId(app)) < UINT32_MAX
      modifies this
      ensures old(dev.Counted(entry)) ==> dev.Counted(entry)
      ensures err == Ok <==> Accepts(dev, app)
      ensures err != Ok ==> entry == old(entry) && log == old(log)
      ensures err == Ok ==> entry == AfterSet(dev, old(entry), app)
      ensures err == Ok ==>
                (dev.Boot(entry) == Some(app) <==>
                   app != Test && !(app.Ota? && FromZero(dev, old(entry), app.slot)))
      ensures err == Ok ==> |log| == |old(log)| + 2 && log[..|old(log)|] == old(log) && log[|log| - 1] == entry
      ensures err == Ok && app != Factory ==> dev.Boot(log[|log| - 2]) == dev.Boot(old(entry))
    {
      if app !in dev.good {
        return ValidateFailed;
      }
      if app == Factory {
        EraseSector(0);
        EraseSector(1);
        return Ok;
      }
      ghost var before := entry;
      err := RewriteOtaData(SubTypeId(app));
      if err == Ok {
        ErasedBootsOld(dev, before);
        SetThenGet(dev, before, app);
        NewestSlot(dev, before, SubTypeId(app));
      }
    }

    /** esp_ota_get_boot_partition */
    method GetBootPartition() returns (app: Option<App>)
      requires dev.TableOk()
      ensures app == dev.Boot(entry)
    {
      var n := dev.AppCount();
      if (dev.Discarded(entry[0]) && dev.Discarded(entry[1])) || n == 0 {
        app := FindDefault();
      } else {
        var active := GetActive(entry);
        if active != -1 {
          app := dev.Find(0x10 + Slot(entry[active].seqNo, n));
        } else {
          app := FindDefault();
        }
      }
    }

    /** find_default_boot_partition */
    method FindDefault() returns (app: Option<App>)
      ensures app == dev.Default()
    {
      app := dev.Find(0);
      if app.Some? {
        return;
      }
      for s := 0x10 to 0x20
        invariant forall k :: 0 <= k < s - 0x10 ==> Ota(k) !in dev.apps
      {
        app := dev.Find(s);
        if app.Some? {
          return;
        }
      }
      app := dev.Find(0x20);
    }

    /** esp_ota_check_rollback_is_possible, without anti-rollback */
    method CheckRollbackIsPossible() returns (possible: bool)
      requires dev.TableOk()
      ensures possible == RollbackTarget(dev, entry).Some?
      ensures possible <==> CanRollBack(dev, entry)
    {
      RollbackPossibleIff(dev, entry);
      var n := dev.AppCount();
      if n == 0 {
        return false;
      }
      var active := GetActive(entry);
      if active == -1 {
        return false;
      }
      var last := 1 - active;
      var app;
      if !dev.Usable(entry[last]) {
        app := dev.Find(0);
        if app.Some? && app.value in dev.good {
          return true;
        }
      }
      if dev.Usable(entry[last]) {
        app := dev.Find(0x10 + Slot(entry[last].seqNo, n));
        if app.Some? && app.value in dev.good {
          return true;
        }
      }
      possible := false;
    }

    /** esp_ota_current_ota_is_workable. After a successful rejection the device boots the
        very application whose image was checked, also after a reset during the rewrite. */
    method CurrentOtaIsWorkable(valid: bool) returns (err: Err)
      requires dev.TableOk()
      modifies this
      ensures err == (if dev.Active(old(entry)) == -1 || dev.Slots() == 0 then Fail
                      else if !valid && !CanRollBack(dev, old(entry)) then RollbackFailed
                      else Ok)
      ensures valid ==> entry == AfterConfirm(dev, old(entry)) && dev.Boot(entry) == dev.Boot(old(entry))
      ensures !valid ==> entry == AfterReject(dev, old(entry))
      ensures !valid && err == Ok ==>
                && RollbackTarget(dev, old(entry)).Some?
                && dev.Boot(entry) == RollbackTarget(dev, old(entry))
                && forall i :: |old(log)| <= i < |log| ==> dev.Boot(log[i]) == dev.Boot(entry)
    {
      var two := entry;
      ghost var before := entry;
      var active := GetActive(two);
      var n := dev.AppCount();
      err := Ok;
      if active != -1 && n != 0 {
        if valid && two[active].state != IMG_VALID {
          two := two[active := two[active].(state := IMG_VALID)];
          RewriteOtaSeq(two, two[active].seqNo, active);
        } else if !valid {
          var possible := CheckRollbackIsPossible();
          if !possible {
            return RollbackFailed;
          }
          two := two[active := two[active].(state := IMG_INVALID)];
          RewriteOtaSeq(two, two[active].seqNo, active);
          RejectBootsTarget(dev, before);
        }
      } else {
        err := Fail;
      }
      ConfirmKeepsBoot(dev, before);
      RollbackPossibleIff(dev, before);
    }
  }
}
