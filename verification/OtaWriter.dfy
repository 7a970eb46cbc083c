/** Writing an OTA image: esp_ota_begin, esp_ota_write and esp_ota_end of
    components/app_update/esp_ota_ops.c, for one update handle.

    In sequential mode the writer erases sectors as it reaches them. With flash encryption
    only whole 16-byte blocks can be programmed, so up to 15 bytes wait in a cache. */
module OtaWriter {
  import opened Arith
  import opened Bytes

  // ---- Positions ----

  /** How far an update has come: programmed bytes, cached bytes, and the end of the region
      that was erased or programmed for it. */
  datatype Pos = Pos(wrote: nat, cached: nat, erasedTo: nat)

  /** The end of the sector that holds the byte before `x`. */
  function SectorEnd(x: nat, es: nat): (e: nat)
    requires x > 0 && es > 0
  {
    es * ((x - 1) / es + 1)
  }

  lemma SectorEndBounds(x: nat, es: nat)
    requires x > 0 && es > 0
    ensures x <= SectorEnd(x, es) < x + es
    ensures SectorEnd(x, es) % es == 0
  {
    var q := (x - 1) / es;
    assert x - 1 == es * q + (x - 1) % es;
    MulNext(es, q);
    ModAdd(q + 1, es, 0);
  }

  /** Where a successful call of esp_ota_write with `size` bytes leads. What is programmed
      without an erase of its own extends the region, too. */
  function Advance(p: Pos, size: nat, es: nat, encrypted: bool, sequential: bool): Pos
    requires es > 0
  {
    if size == 0 then p
    else
      var wrote := if encrypted then p.wrote + 16 * ((p.cached + size) / 16) else p.wrote + size;
      Pos(wrote,
          if encrypted then (p.cached + size) % 16 else 0,
          if sequential then SectorEnd(p.wrote + size, es) else Most(p.erasedTo, wrote))
  }

  function Most(a: nat, b: nat): nat
  {
    if a < b then b else a
  }

  ghost predicate PosOk(p: Pos, es: nat, encrypted: bool, sequential: bool)
    requires es > 0
  {
    && (if encrypted then p.wrote % 16 == 0 && p.cached < 16 else p.cached == 0)
    && (sequential ==> p.erasedTo % es == 0 && p.wrote <= p.erasedTo <= p.wrote + es)
  }

  lemma MultipleOfMultiple(x: nat, es: nat)
    requires es > 0 && es % 16 == 0 && x % es == 0
    ensures x % 16 == 0
  {
    var k, q := es / 16, x / es;
    assert es == 16 * k && x == es * q;
    assert x == 16 * (k * q) by {
      MulAssociates(16, k, q);
    }
  }

  /** Completing a cached block first does not change the number of whole blocks. */
  lemma FirstBlock(cached: nat, size: nat)
    requires 0 < cached < 16 && size > 0
    ensures cached + size < 16 ==> (cached + size) / 16 == 0
    ensures var used := 16 - cached;
            used <= size ==>
              && 16 + 16 * ((size - used) / 16) == 16 * ((cached + size) / 16)
              && (size - used) % 16 == (cached + size) % 16
  {
  }

  lemma BlocksOf(wrote: nat, total: nat)
    requires wrote % 16 == 0
    ensures var w := wrote + 16 * (total / 16);
            w % 16 == 0 && w <= wrote + total < w + 16
  {
  }

  /** The sectors erased by a call cover everything that it programs, although the test in
      the source leaves the cached bytes out of account. */
  lemma AdvanceOk(p: Pos, size: nat, es: nat, encrypted: bool, sequential: bool)
    requires es > 0 && es % 16 == 0 && PosOk(p, es, encrypted, sequential)
    ensures PosOk(Advance(p, size, es, encrypted, sequential), es, encrypted, sequential)
  {
    if size > 0 {
      if encrypted {
        BlocksOf(p.wrote, p.cached + size);
      }
      if sequential {
        AdvanceErased(p, size, es, encrypted);
      }
    }
  }

  /** Rounding to blocks and to sectors: `wrote` is a block boundary next to `reached`. */
  lemma ErasedBounds(wrote: nat, reached: nat, erased: nat, es: nat)
    requires wrote % 16 == 0 && erased % 16 == 0 && es % 16 == 0
    requires reached <= erased < reached + es
    requires wrote < reached + 16 && reached < wrote + 16
    ensures wrote <= erased <= wrote + es
  {
  }

  lemma AdvanceErased(p: Pos, size: nat, es: nat, encrypted: bool)
    requires es > 0 && es % 16 == 0 && size > 0 && PosOk(p, es, encrypted, true)
    ensures var p' := Advance(p, size, es, encrypted, true);
            p'.erasedTo % es == 0 && p'.wrote <= p'.erasedTo <= p'.wrote + es
  {
    var p' := Advance(p, size, es, encrypted, true);
    SectorEndBounds(p.wrote + size, es);
    if encrypted {
      BlocksOf(p.wrote, p.cached + size);
      MultipleOfMultiple(p'.erasedTo, es);
      ErasedBounds(p'.wrote, p.wrote + size, p'.erasedTo, es);
    }
  }

  /** A block behind `wrote` is erased unless `wrote` is where the erased region ends. */
  lemma FlushBounds(wrote: nat, reached: nat, erased: nat, es: nat)
    requires es > 0 && wrote % 16 == 0 && erased % 16 == 0
    requires erased % es == 0 && reached <= erased < reached + es && wrote <= erased
    requires wrote < reached + 16 && reached < wrote + 16
    ensures wrote + 16 <= erased <==> wrote % es != 0 || reached > wrote
  {
    if wrote % es == 0 && reached <= wrote && wrote < erased {
      SameRemainder(wrote, erased, es);
    }
  }

  /** Whether the final flush of a cached block stays in erased flash: it does unless the
      programmed bytes end with a sector and the last call cached no more bytes than were
      cached before it. */
  lemma FinalFlushErased(p: Pos, size: nat, es: nat)
    requires es > 0 && es % 16 == 0 && PosOk(p, es, true, true) && size > 0
    ensures var p' := Advance(p, size, es, true, true);
            p'.wrote + 16 <= p'.erasedTo <==> p'.wrote % es != 0 || p'.cached > p.cached
  {
    var p' := Advance(p, size, es, true, true);
    AdvanceErased(p, size, es, true);
    SectorEndBounds(p.wrote + size, es);
    BlocksOf(p.wrote, p.cached + size);
    MultipleOfMultiple(p'.erasedTo, es);
    FlushBounds(p'.wrote, p.wrote + size, p'.erasedTo, es);
  }

  /** The positions after a sequence of successful calls. */
  function AdvanceAll(p: Pos, sizes: seq<nat>, es: nat, encrypted: bool, sequential: bool): Pos
    requires es > 0
  {
    if sizes == [] then p
    else Advance(AdvanceAll(p, sizes[..|sizes| - 1], es, encrypted, sequential), sizes[|sizes| - 1],
                 es, encrypted, sequential)
  }

  function Sum(sizes: seq<nat>): nat
  {
    if sizes == [] then 0 else Sum(sizes[..|sizes| - 1]) + sizes[|sizes| - 1]
  }

  /** From the start of an update, for any sizes of the buffers: the positions stay sound and
      account for every byte. */
  lemma {:induction false} AdvanceAllOk(sizes: seq<nat>, es: nat, encrypted: bool, sequential: bool)
    requires es > 0 && es % 16 == 0
    ensures var p := AdvanceAll(Pos(0, 0, 0), sizes, es, encrypted, sequential);
            PosOk(p, es, encrypted, sequential) && p.wrote + p.cached == Sum(sizes)
  {
    if sizes == [] {
    } else {
      AdvanceAllOk(sizes[..|sizes| - 1], es, encrypted, sequential);
      AdvanceOk(AdvanceAll(Pos(0, 0, 0), sizes[..|sizes| - 1], es, encrypted, sequential),
                sizes[|sizes| - 1], es, encrypted, sequential);
    }
  }

  /** A run whose final flush hits a sector that was never erased: two buffers of 10 and
      4096 bytes, with sectors of 4096 bytes. */
  lemma FinalFlushHitsUnerasedSector()
    ensures var p := AdvanceAll(Pos(0, 0, 0), [10, 4096], 4096, true, true);
            p == Pos(4096, 10, 4096)
  {
    var one: seq<nat> := [10];
    assert [10, 4096][..1] == one;
    assert one[..0] == [];
    assert AdvanceAll(Pos(0, 0, 0), one, 4096, true, true) == Pos(0, 10, 4096);
  }

  // ---- Flash ----

  /** A flash partition. A byte is blank when it was erased and not programmed since; only
      then does programming store the given value, otherwise it stores `burn` of the old and
      the new value. An operation fails if it leaves the partition, and when `fault` says so. */
  class Flash {
    const size: nat
    const es: nat
    const burn: (byte, byte) -> byte
    var cells: seq<byte>
    var blank: seq<bool>

    /** A partition with these contents, of which `blank` says which bytes are blank. */
    constructor (es: nat, burn: (byte, byte) -> byte, cells: seq<byte>, blank: seq<bool>)
      requires es > 0 && es % 16 == 0 && |cells| == |blank|
      ensures Valid() && size == |cells|
      ensures this.es == es && this.burn == burn && this.cells == cells && this.blank == blank
    {
      size, this.es, this.burn := |cells|, es, burn;
      this.cells, this.blank := cells, blank;
    }

    ghost predicate Valid()
      reads this
    {
      |cells| == |blank| == size && es > 0 && es % 16 == 0
    }

    ghost predicate Blank(from: nat, to: nat)
      reads this
      requires Valid()
    {
      to <= size && forall i :: from <= i < to ==> blank[i]
    }

    /** Behind `at`, the same bytes are blank as in `initial`. */
    ghost predicate SameFrom(at: nat, initial: seq<bool>)
      reads this
      requires Valid()
    {
      |initial| == size && at <= size && blank[at..] == initial[at..]
    }

    lemma SameFromAt(at: nat, initial: seq<bool>, i: nat)
      requires Valid() && SameFrom(at, initial) && at <= i < size
      ensures blank[i] == initial[i]
    {
      assert blank[i] == blank[at..][i - at] && initial[i] == initial[at..][i - at];
    }

    lemma SameFromLater(at: nat, initial: seq<bool>, to: nat, was: seq<bool>)
      requires Valid() && |initial| == |was| == size && at <= to <= size
      requires was[at..] == initial[at..] && blank[to..] == was[to..]
      ensures SameFrom(to, initial)
    {
      assert initial[to..] == initial[at..][to - at..] == was[at..][to - at..] == was[to..];
    }

    /** esp_partition_erase_range */
    method Erase(at: nat, len: nat, fault: bool) returns (ok: bool)
      requires Valid()
      modifies this
      ensures Valid()
      ensures ok <==> !fault && at % es == 0 && len % es == 0 && at + len <= size
      ensures !ok ==> cells == old(cells) && blank == old(blank)
      ensures ok ==> Blank(at, at + len)
      ensures at <= size ==> cells[..at] == old(cells[..at]) && blank[..at] == old(blank[..at])
      ensures ok ==> blank[at + len..] == old(blank[at + len..])
    {
      ok := !fault && at % es == 0 && len % es == 0 && at + len <= size;
      if ok {
        cells := cells[..at] + seq(len, _ => 0xFF) + cells[at + len..];
        blank := blank[..at] + seq(len, _ => true) + blank[at + len..];
      }
    }

    /** esp_partition_write */
    method Program(at: nat, bytes: seq<byte>, fault: bool) returns (ok: bool, ghost met: bool)
      requires Valid()
      modifies this
      ensures Valid()
      ensures ok <==> !fault && at + |bytes| <= size
      ensures !ok ==> cells == old(cells) && blank == old(blank)
      ensures met == old(Blank(at, at + |bytes|))
      ensures ok && old(Blank(at, at + |bytes|)) ==> cells[..at + |bytes|] == old(cells[..at]) + bytes
      ensures at <= size ==> cells[..at] == old(cells[..at])
      ensures ok ==> blank[at + |bytes|..] == old(blank[at + |bytes|..])
    {
      var was, erased := cells, blank;
      met := Blank(at, at + |bytes|);
      ok := !fault && at + |bytes| <= size;
      if ok {
        var stored := seq(|bytes|, i requires 0 <= i < |bytes| && at + i < |was| && |was| == |erased| =>
          if erased[at + i] then bytes[i] else burn(was[at + i], bytes[i]));
        assert Blank(at, at + |bytes|) ==> stored == bytes;
        cells := cells[..at] + stored + cells[at + |bytes|..];
        blank := blank[..at] + seq(|bytes|, _ => false) + blank[at + |bytes|..];
      }
    }
  }

  /** Behind what was programmed nothing changes. */
  lemma BlankBehind(was: seq<bool>, after: seq<bool>, end: nat, erasedTo: nat)
    requires |was| == |after| && end <= |was| && erasedTo <= |was| && after[end..] == was[end..]
    ensures forall i :: end <= i < erasedTo ==> after[i] == was[i]
    ensures after[Most(erasedTo, end)..] == was[Most(erasedTo, end)..]
  {
    forall i | end <= i < |was|
      ensures after[i] == was[i]
    {
      assert after[i] == after[end..][i - end] && was[i] == was[end..][i - end];
    }
  }

  // ---- The writer ----

  datatype Kind = Image | PartitionTable | Other

  datatype Err = Ok | InvalidArg | ValidateFailed | InvalidState | FlashError

  /** The first bytes that an image or a partition table must have. */
  predicate MagicOk(kind: Kind, data: seq<byte>)
    requires kind == PartitionTable ==> |data| >= 2
    requires |data| >= 1
  {
    match kind
    case Image => data[0] == 0xE9
    case PartitionTable => FromLe16(data[..2]) == 0x50AA
    case Other => true
  }

  /** An image starts with 0xE9, a partition table with 0xAA and 0x50. */
  lemma MagicBytes(kind: Kind, data: seq<byte>)
    requires data != [] && (kind == PartitionTable ==> |data| >= 2)
    ensures MagicOk(kind, data) <==>
              && (kind == Image ==> data[0] == 0xE9)
              && (kind == PartitionTable ==> data[0] == 0xAA && data[1] == 0x50)
  {
    if kind == PartitionTable {
      var low: nat, high: nat := data[0], data[1];
      assert FromLe16(data[..2]) == low + 256 * high;
    }
  }

  /** One entry of the list of OTA operations, an update in progress. */
  class Update {
    const flash: Flash
    const encrypted: bool
    const kind: Kind
    const needErase: bool
    var wroteSize: nat
    var partialBytes: nat
    const partialData: array<byte>

    // The buffers written so far, the end of the region erased or programmed for this update,
    // and whether every program of this update met blank bytes.
    ghost var stream: seq<byte>
    ghost var erasedTo: nat
    ghost var intact: bool

    // Which bytes of the partition were blank when the update began.
    ghost const initial: seq<bool>

    ghost function Position(): Pos
      reads this
    {
      Pos(wroteSize, partialBytes, erasedTo)
    }

    /** The programmed bytes followed by the cached ones. */
    ghost function Held(): seq<byte>
      reads this, flash, partialData
      requires wroteSize <= |flash.cells| && partialBytes <= partialData.Length
    {
      flash.cells[..wroteSize] + partialData[..partialBytes]
    }

    ghost predicate Sound()
      reads this, flash, partialData
    {
      && flash.Valid() && partialData.Length == 16 && partialBytes <= 16
      && wroteSize <= erasedTo <= flash.size
      && flash.Blank(wroteSize, erasedTo)
      && flash.SameFrom(erasedTo, initial)
    }

    /** Everything up to `to` was erased for this update or was blank before it. */
    ghost predicate Reach(to: nat)
      reads this
    {
      to <= |initial| && forall i :: erasedTo <= i < to ==> initial[i]
    }

    lemma ReachIff(to: nat)
      requires Sound() && wroteSize <= to <= flash.size
      ensures Reach(to) <==> flash.Blank(wroteSize, to)
    {
      forall i | erasedTo <= i < to
        ensures flash.blank[i] == initial[i]
      {
        flash.SameFromAt(erasedTo, initial, i);
      }
    }

    /** As long as an update stays inside of what was erased for it or blank before, for example of
        the announced size of the image, its writes are intact and the next ones will be, too. */
    twostate lemma StaysIntact(size: nat, n: nat)
      requires flash.es > 0 && old(Reach(n)) && !needErase
      requires var end := Advance(old(Position()), size, flash.es, encrypted, needErase);
               && end.wrote <= n && Position() == end
               && intact == (old(intact) && (needErase || old(Reach(end.wrote))))
      ensures intact == old(intact) && Reach(n)
    {
    }

    /** What holds between successful calls: nothing of the stream is lost, as long as only
        blank bytes are programmed. */
    ghost predicate Valid()
      reads this, flash, partialData
    {
      && Sound()
      && PosOk(Position(), flash.es, encrypted, needErase)
      && |stream| == wroteSize + partialBytes
      && (intact ==> Held() == stream)
    }

    constructor (flash: Flash, encrypted: bool, kind: Kind, needErase: bool, ghost erasedTo: nat)
      requires flash.Valid() && flash.Blank(0, erasedTo) && (needErase ==> erasedTo == 0)
      ensures Valid() && fresh(partialData)
      ensures this.flash == flash && this.encrypted == encrypted && this.kind == kind
      ensures this.needErase == needErase
      ensures Position() == Pos(0, 0, erasedTo) && stream == [] && intact
      ensures initial == flash.blank
    {
      this.flash, this.encrypted, this.kind, this.needErase := flash, encrypted, kind, needErase;
      wroteSize, partialBytes := 0, 0;
      partialData := new byte[16](_ => 0);
      stream, this.erasedTo, intact := [], erasedTo, true;
      initial := flash.blank;
    }

    /** The sectors that a call in sequential mode erases before it writes. */
    method EraseAhead(size: nat, fault: bool) returns (ok: bool)
      requires Sound() && size > 0
      requires needErase && PosOk(Position(), flash.es, encrypted, true)
      modifies this`erasedTo, flash
      ensures Sound()
      ensures ok ==> erasedTo == SectorEnd(wroteSize + size, flash.es)
      ensures !ok ==> erasedTo == old(erasedTo)
      ensures ok <== !fault && SectorEnd(wroteSize + size, flash.es) <= flash.size
      ensures flash.cells[..wroteSize] == old(flash.cells[..wroteSize])
    {
      var (at, len) := EraseRange(wroteSize, size, flash.es);
      EraseRangeCovers(wroteSize, size, flash.es, erasedTo);
      ok := true;
      if len > 0 {
        ok := flash.Erase(at, len, fault);
      }
      if ok {
        flash.SameFromLater(erasedTo, initial, SectorEnd(wroteSize + size, flash.es), old(flash.blank));
        erasedTo := SectorEnd(wroteSize + size, flash.es);
      }
    }

    /** Programs whole blocks, or anything without encryption, behind what was programmed. */
    method Append(bytes: seq<byte>, fault: bool) returns (ok: bool)
      requires Sound()
      modifies this`wroteSize, this`erasedTo, this`intact, flash
      ensures Sound()
      ensures ok <==> !fault && old(wroteSize) + |bytes| <= flash.size
      ensures !ok ==> wroteSize == old(wroteSize) && erasedTo == old(erasedTo) && intact == old(intact)
      ensures !ok ==> flash.cells == old(flash.cells)
      ensures ok ==> wroteSize == old(wroteSize) + |bytes| && erasedTo == Most(old(erasedTo), wroteSize)
      ensures ok ==> intact == (old(intact) && old(Reach(wroteSize + |bytes|)))
      ensures ok && intact ==> flash.cells[..wroteSize] == old(flash.cells[..wroteSize]) + bytes
      ensures flash.cells[..old(wroteSize)] == old(flash.cells[..wroteSize])
    {
      if wroteSize + |bytes| <= flash.size {
        ReachIff(wroteSize + |bytes|);
      }
      ghost var met;
      ok, met := flash.Program(wroteSize, bytes, fault);
      if ok {
        ghost var after, was, to := flash.blank, old(flash.blank), Most(erasedTo, wroteSize + |bytes|);
        wroteSize := wroteSize + |bytes|;
        intact := intact && met;
        BlankBehind(was, after, wroteSize, erasedTo);
        flash.SameFromLater(erasedTo, initial, to, was);
        erasedTo := to;
      }
    }

    /** The part of an encrypted write that completes a block left over from earlier calls:
        `used` bytes of the buffer go to the cache, and a full cache is programmed. */
    method TopUp(data: seq<byte>, fault: bool) returns (ok: bool, used: nat)
      requires Sound() && 0 < partialBytes < 16
      modifies this`wroteSize, this`partialBytes, this`erasedTo, this`intact, flash, partialData
      ensures Sound()
      ensures used == (if 16 - old(partialBytes) <= |data| then 16 - old(partialBytes) else |data|)
      ensures flash.cells[..old(wroteSize)] == old(flash.cells[..wroteSize])
      ensures var full := old(partialBytes) + used == 16;
              && (ok <==> full ==> !fault && old(wroteSize) + 16 <= flash.size)
              && (ok && full ==> wroteSize == old(wroteSize) + 16 && partialBytes == 0
                                 && erasedTo == Most(old(erasedTo), wroteSize))
              && (ok && !full ==> wroteSize == old(wroteSize) && partialBytes == old(partialBytes) + used
                                  && erasedTo == old(erasedTo))
              && intact == (old(intact) && (ok && full ==> old(Reach(wroteSize + 16))))
      ensures ok && intact ==> Held() == old(Held()) + data[..used]
    {
      used := if 16 - partialBytes <= |data| then 16 - partialBytes else |data|;
      ghost var cached := partialData[..partialBytes];
      forall i | 0 <= i < used {
        partialData[partialBytes + i] := data[i];
      }
      partialBytes := partialBytes + used;
      assert partialData[..partialBytes] == cached + data[..used];
      ok := true;
      if partialBytes != 16 {
        return;
      }
      ok := Append(partialData[..], fault);
      if ok {
        partialBytes := 0;
        forall i | 0 <= i < 16 {
          partialData[i] := 0xFF;
        }
      }
    }

    /** The part of an encrypted write behind a completed block: the bytes that do not fill
        a block go to the cache, the others are programmed. */
    method WriteBlocks(data: seq<byte>, fault: bool) returns (ok: bool)
      requires Sound() && partialBytes == 0
      modifies this`wroteSize, this`partialBytes, this`erasedTo, this`intact, flash, partialData
      ensures Sound()
      ensures flash.cells[..old(wroteSize)] == old(flash.cells[..wroteSize])
      ensures var to := old(wroteSize) + 16 * (|data| / 16);
              && (ok <==> !fault && to <= flash.size)
              && (ok ==> wroteSize == to && partialBytes == |data| % 16 && erasedTo == Most(old(erasedTo), to))
              && intact == (old(intact) && (ok ==> old(Reach(to))))
      ensures ok && intact ==> Held() == old(Held()) + data
    {
      ghost var before := Held();
      var size := |data|;
      partialBytes := size % 16;
      if partialBytes != 0 {
        size := size - partialBytes;
        forall i | 0 <= i < partialBytes {
          partialData[i] := data[size + i];
        }
      }
      assert size == 16 * (|data| / 16) && partialData[..partialBytes] == data[size..];
      ok := Append(data[..size], fault);
      if ok {
        assert data == data[..size] + data[size..];
      }
    }

    /** The erase that precedes a write in sequential mode. */
    method Prepare(size: nat, fault: bool) returns (ok: bool)
      requires Valid() && size > 0
      modifies this`erasedTo, flash
      ensures Sound()
      ensures flash.cells[..wroteSize] == old(flash.cells[..wroteSize])
      ensures !needErase ==> ok && erasedTo == old(erasedTo)
      ensures var end := Advance(old(Position()), size, flash.es, encrypted, needErase);
              && (ok ==> end.erasedTo == Most(erasedTo, end.wrote))
              && (ok ==> (Reach(end.wrote) <==> needErase || old(Reach(end.wrote))))
              && (ok && !fault && end.erasedTo <= flash.size ==> end.wrote <= flash.size)
              && (!fault && end.erasedTo <= flash.size ==> ok)
              && PosOk(end, flash.es, encrypted, needErase)
      ensures intact ==> Held() == stream
    {
      ok := true;
      AdvanceOk(Position(), size, flash.es, encrypted, needErase);
      if needErase {
        ok := EraseAhead(size, fault);
      }
    }

    /** esp_ota_write. A successful call appends the whole buffer to what the flash and the
        cache hold and leaves what was programmed before alone. It programs blank bytes only,
        always in sequential mode, and otherwise if and only if what it programs was erased for
        the update or was blank before. Without flash faults it fails only for a wrong magic
        number or a full partition. */
    method Write(data: seq<byte>, eraseFault: bool, blockFault: bool, dataFault: bool) returns (err: Err)
      requires Valid()
      requires kind == PartitionTable && stream == [] && data != [] ==> |data| >= 2
      modifies this`wroteSize, this`partialBytes, this`stream, this`erasedTo, this`intact, flash, partialData
      ensures Sound() && flash.cells[..old(wroteSize)] == old(flash.cells[..wroteSize])
      ensures var end := Advance(old(Position()), |data|, flash.es, encrypted, needErase);
              && (err == Ok ==> Valid() && stream == old(stream) + data && Position() == end)
              && (err == Ok ==> intact == (old(intact) && (needErase || old(Reach(end.wrote)))))
              && (!eraseFault && !blockFault && !dataFault && end.erasedTo <= flash.size ==>
                    err == if data != [] && old(stream) == [] && !MagicOk(kind, data) then ValidateFailed else Ok)
      ensures needErase ==> intact == old(intact)
    {
      if data == [] {
        return Ok;
      }
      ghost var end := Advance(Position(), |data|, flash.es, encrypted, needErase);
      var ok := Prepare(|data|, eraseFault);
      if !ok {
        return FlashError;
      }
      err := CheckAndStore(data, blockFault, dataFault);
      assert err == Ok ==> Position() == end;
    }

    /** The part of esp_ota_write behind the erase: the first bytes of an image are checked. */
    method CheckAndStore(data: seq<byte>, blockFault: bool, dataFault: bool) returns (err: Err)
      requires Sound() && (intact ==> Held() == stream) && |stream| == wroteSize + partialBytes && data != []
      requires if encrypted then wroteSize % 16 == 0 && partialBytes < 16 else partialBytes == 0
      requires kind == PartitionTable && stream == [] ==> |data| >= 2
      modifies this`wroteSize, this`partialBytes, this`stream, this`erasedTo, this`intact, flash, partialData
      ensures Sound() && flash.cells[..old(wroteSize)] == old(flash.cells[..wroteSize])
      ensures var end := Advance(old(Position()), |data|, flash.es, encrypted, false);
              && (err == Ok ==> Position() == end && stream == old(stream) + data)
              && (err == Ok ==> |stream| == wroteSize + partialBytes && (intact ==> Held() == stream))
              && (err == Ok ==> intact == (old(intact) && old(Reach(end.wrote))))
              && (!blockFault && !dataFault && end.wrote <= flash.size ==>
                    err == if old(stream) == [] && !MagicOk(kind, data) then ValidateFailed else Ok)
              && (old(Reach(end.wrote)) ==> intact == old(intact))
    {
      if wroteSize == 0 && partialBytes == 0 {
        if !MagicOk(kind, data) {
          return ValidateFailed;
        }
      }
      err := Store(data, blockFault, dataFault);
    }

    /** The part of esp_ota_write behind the erase and the check of the magic number. */
    method Store(data: seq<byte>, blockFault: bool, dataFault: bool) returns (err: Err)
      requires Sound() && (intact ==> Held() == stream) && |stream| == wroteSize + partialBytes && data != []
      requires if encrypted then wroteSize % 16 == 0 && partialBytes < 16 else partialBytes == 0
      modifies this`wroteSize, this`partialBytes, this`stream, this`erasedTo, this`intact, flash, partialData
      ensures Sound() && flash.cells[..old(wroteSize)] == old(flash.cells[..wroteSize])
      ensures var end := Advance(old(Position()), |data|, flash.es, encrypted, false);
              && (err == Ok ==> Position() == end && stream == old(stream) + data)
              && (err == Ok ==> |stream| == wroteSize + partialBytes && (intact ==> Held() == stream))
              && (err == Ok ==> intact == (old(intact) && old(Reach(end.wrote))))
              && (!blockFault && !dataFault && end.wrote <= flash.size ==> err == Ok)
              && (old(Reach(end.wrote)) ==> intact == old(intact))
    {
      var ok;
      if encrypted {
        ok := StoreBlocks(data, blockFault, dataFault);
      } else {
        ok := Append(data, dataFault);
      }
      if ok {
        stream := stream + data;
      }
      err := if ok then Ok else FlashError;
    }

    /** The same with flash encryption. */
    method StoreBlocks(data: seq<byte>, blockFault: bool, dataFault: bool) returns (ok: bool)
      requires Sound() && partialBytes < 16 && data != []
      modifies this`wroteSize, this`partialBytes, this`erasedTo, this`intact, flash, partialData
      ensures Sound() && flash.cells[..old(wroteSize)] == old(flash.cells[..wroteSize])
      ensures var to := old(wroteSize) + 16 * ((old(partialBytes) + |data|) / 16);
              && (ok ==> wroteSize == to && partialBytes == (old(partialBytes) + |data|) % 16
                         && erasedTo == Most(old(erasedTo), to))
              && (ok ==> intact == (old(intact) && old(Reach(to))))
              && (!blockFault && !dataFault && to <= flash.size ==> ok)
              && (old(Reach(to)) ==> intact == old(intact))
      ensures ok && intact ==> Held() == old(Held()) + data
    {
      if partialBytes == 0 {
        ok := WriteBlocks(data, dataFault);
        return;
      }
      FirstBlock(partialBytes, |data|);
      var used;
      ok, used := TopUp(data, blockFault);
      if !ok {
        return;
      }
      if partialBytes != 0 {
        assert data[..used] == data;
        return;
      }
      ok := StoreRest(data, used, dataFault);
    }

    /** The part of an encrypted write behind a completed block. */
    method StoreRest(data: seq<byte>, used: nat, dataFault: bool) returns (ok: bool)
      requires Sound() && partialBytes == 0 && 16 <= wroteSize && used <= |data|
      modifies this`wroteSize, this`partialBytes, this`erasedTo, this`intact, flash, partialData
      ensures Sound() && flash.cells[..old(wroteSize) - 16] == old(flash.cells[..wroteSize - 16])
      ensures var to := old(wroteSize) + 16 * ((|data| - used) / 16);
              && (ok <==> !dataFault && to <= flash.size)
              && (ok ==> wroteSize == to && partialBytes == (|data| - used) % 16
                         && erasedTo == Most(old(erasedTo), to))
              && intact == (old(intact) && (ok ==> old(Reach(to))))
      ensures ok && intact ==> forall before :: old(Held()) == before + data[..used] ==> Held() == before + data
    {
      ghost var first := wroteSize - 16;
      ghost var topped := flash.cells[..wroteSize];
      ok := WriteBlocks(data[used..], dataFault);
      assert flash.cells[..first] == flash.cells[..first + 16][..first] == topped[..first];
      assert data == data[..used] + data[used..];
      forall before | old(Held()) == before + data[..used]
        ensures ok && intact ==> Held() == before + data
      {
        AppendAssociates(before, data[..used], data[used..]);
      }
    }

    /** esp_ota_end, up to the verification of the image. The last cached bytes are programmed
        as a whole block, without an erase of their own: this meets blank flash only if and only
        if each byte of the block was erased for the update or was blank before. */
    method End(fault: bool) returns (err: Err)
      requires Valid()
      modifies this`wroteSize, this`partialBytes, this`intact, flash
      ensures err == (if old(wroteSize) == 0 then InvalidArg
                      else if old(partialBytes) > 0 && (fault || old(wroteSize) + 16 > flash.size) then InvalidState
                      else Ok)
      ensures err != Ok ==> flash.cells == old(flash.cells) && intact == old(intact)
      ensures err == Ok ==> wroteSize == old(wroteSize) + (if old(partialBytes) > 0 then 16 else 0)
      ensures err == Ok ==> wroteSize <= |flash.cells| && partialBytes == 0
      ensures var blank := old(partialBytes) == 0 || old(Reach(wroteSize + 16));
              && (err == Ok ==> intact == (old(intact) && blank))
              && (err == Ok && intact ==> stream <= flash.cells[..wroteSize])
    {
      err := Ok;
      if wroteSize == 0 {
        return InvalidArg;
      }
      if partialBytes > 0 {
        if wroteSize + 16 <= flash.size {
          ReachIff(wroteSize + 16);
        }
        var ok;
        ghost var met;
        ok, met := flash.Program(wroteSize, partialData[..], fault);
        if !ok {
          return InvalidState;
        }
        intact := intact && met;
        assert partialData[..partialBytes] <= partialData[..];
        wroteSize := wroteSize + 16;
        partialBytes := 0;
      }
    }
  }

  // ---- Starting an update ----

  const SIZE_UNKNOWN: u32 := 0xFFFFFFFF
  const SEQUENTIAL: u32 := 0xFFFFFFFE

  /** ALIGN_UP on 32-bit words. */
  function AlignUp(x: u32, es: nat): (a: u32)
    requires 0 < es < TWO_32
  {
    var sum := Add32(x, es - 1);
    sum - sum % es
  }

  /** It rounds up to whole sectors, and the sum wraps for sizes in the last sector only. */
  lemma AlignUpBounds(x: u32, es: nat)
    requires 0 < es < TWO_32
    ensures AlignUp(x, es) % es == 0
    ensures x <= AlignUp(x, es) < x + es <==> x as int + es <= TWO_32
    ensures TWO_32 < x as int + es ==> AlignUp(x, es) == 0
  {
    var sum := Add32(x, es - 1);
    assert sum == es * (sum / es) + sum % es;
    assert sum - sum % es == es * (sum / es);
    ModAdd(sum / es, es, 0);
    if TWO_32 < x as int + es {
      assert 0 <= sum < es;
      SmallQuotient(sum, es);
    }
  }

  lemma SmallQuotient(x: nat, n: nat)
    requires x < n
    ensures x % n == x
  {
  }

  /** How much esp_ota_begin erases. */
  function BeginErases(imageSize: u32, size: nat, es: nat): nat
    requires 0 < es < TWO_32
  {
    if imageSize == SEQUENTIAL then 0
    else if imageSize == 0 || imageSize == SIZE_UNKNOWN then size
    else AlignUp(imageSize, es)
  }

  /** esp_ota_begin, for a partition that may be updated. */
  method Begin(flash: Flash, encrypted: bool, kind: Kind, imageSize: u32, fault: bool)
    returns (started: bool, update: Update)
    requires flash.Valid() && flash.es < TWO_32 && flash.size % flash.es == 0
    modifies flash
    ensures started <==> imageSize == SEQUENTIAL
                         || (!fault && BeginErases(imageSize, flash.size, flash.es) <= flash.size)
    ensures fresh(update) && fresh(update.partialData)
    ensures update.flash == flash && update.encrypted == encrypted && update.kind == kind
    ensures started ==>
              && update.Valid() && update.stream == [] && update.intact && update.initial == flash.blank
              && update.needErase == (imageSize == SEQUENTIAL)
              && update.Position() == Pos(0, 0, BeginErases(imageSize, flash.size, flash.es))
    ensures started && imageSize in {0, SIZE_UNKNOWN} ==>
              flash.Blank(0, flash.size) && update.Reach(flash.size)
    ensures started && imageSize !in {SEQUENTIAL, SIZE_UNKNOWN} && imageSize + flash.es <= TWO_32 ==>
              flash.Blank(0, imageSize) && update.Reach(imageSize)
    ensures imageSize == SEQUENTIAL || !started ==> flash.cells == old(flash.cells) && flash.blank == old(flash.blank)
  {
    started := true;
    ghost var erased := 0;
    if imageSize != SEQUENTIAL {
      var eraseSize := flash.size;
      if imageSize != 0 && imageSize != SIZE_UNKNOWN {
        eraseSize := AlignUp(imageSize, flash.es);
        AlignUpBounds(imageSize, flash.es);
      }
      started := flash.Erase(0, eraseSize, fault);
      erased := if started then eraseSize else 0;
    }
    update := new Update(flash, encrypted, kind, imageSize == SEQUENTIAL, erased);
  }

  /** The offset and length of the erase that precedes a write; length 0 if there is none. */
  function EraseRange(wrote: nat, size: nat, es: nat): (range: (nat, int))
    requires es > 0 && size > 0
  {
    var first, last := wrote / es, (wrote + size - 1) / es;
    if wrote % es == 0 then (wrote, es * (last - first + 1))
    else (es * (first + 1), es * (last - first))
  }

  /** The erase starts where the erased region ends, or at `wrote` itself, and reaches the
      end of the last sector that the call affects. */
  lemma EraseRangeCovers(wrote: nat, size: nat, es: nat, erasedTo: nat)
    requires es > 0 && size > 0
    requires erasedTo % es == 0 && wrote <= erasedTo <= wrote + es
    ensures var (at, len) := EraseRange(wrote, size, es);
            && at % es == 0 && len >= 0 && len % es == 0
            && wrote <= at <= erasedTo <= at + len
            && at + len == SectorEnd(wrote + size, es)
  {
    var first, last := wrote / es, (wrote + size - 1) / es;
    DivMonotone(wrote, wrote + size - 1, es);
    if wrote % es == 0 {
      AlignedRange(wrote, first, last, es);
      MulAtLeast(es, last - first + 1);
    } else {
      UnalignedRange(wrote, first, last, es, erasedTo);
    }
  }

  lemma AlignedRange(wrote: nat, first: nat, last: nat, es: nat)
    requires es > 0 && first <= last && first == wrote / es && wrote % es == 0
    ensures (es * (last - first + 1)) % es == 0 && es * (last - first + 1) >= 0
    ensures wrote + es * (last - first + 1) == es * (last + 1)
  {
    assert wrote == es * first;
    ModAdd(last - first + 1, es, 0);
    MulAdd(es, first, last - first + 1);
  }

  lemma UnalignedRange(wrote: nat, first: nat, last: nat, es: nat, erasedTo: nat)
    requires es > 0 && first <= last && first == wrote / es && wrote % es != 0
    requires erasedTo % es == 0 && wrote <= erasedTo <= wrote + es
    ensures (es * (first + 1)) % es == 0 && erasedTo == es * (first + 1)
    ensures (es * (last - first)) % es == 0 && es * (last - first) >= 0
    ensures es * (first + 1) + es * (last - first) == es * (last + 1)
  {
    ModAdd(first + 1, es, 0);
    ModAdd(last - first, es, 0);
    MulAdd(es, first + 1, last - first);
    MulNext(es, first);
    assert wrote == es * first + wrote % es;
    if erasedTo < es * (first + 1) {
      SameRemainder(erasedTo, es * (first + 1), es);
    } else if es * (first + 1) < erasedTo {
      SameRemainder(es * (first + 1), erasedTo, es);
    }
  }
}
