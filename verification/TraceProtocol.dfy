/** The double-buffer protocol of components/app_trace/app_trace_membufs_proto.c.

    Two memory blocks alternate between the target and the host: the target fills one
    while the host reads the other and may leave data for the target in it. Packets that
    do not fit the current block wait in a pending ring, which is pumped into the new block
    at the next switch; data from the host go to a down ring. A build without a pending
    buffer is the case of a pending ring of capacity 0. */
module TraceProtocol {
  import opened Bytes
  import opened TraceRing
  import opened TraceFrames
  import opened TraceAlloc

  /** What the host has signalled when the down buffer is polled, and whether the caller's
      time is over. */
  datatype Poll = Poll(pending: bool, expired: bool) {

    /** The time is over, and the host signals nothing. */
    predicate GivesUp() {
      !pending && expired
    }
  }

  /** How far a call that waits for data from the host has come. */
  datatype Outcome = Served | TimedOut | Running

  /** How a call that finds no data from the host goes on, and the data that arrive. */
  datatype Arrival = Arrival(outcome: Outcome, bytes: seq<byte>)

  /** How many of `n` bytes a down ring of `size` bytes takes over that holds `held`. */
  function Taken(held: nat, size: nat, n: nat): (taken: nat)
    ensures taken <= n && (taken < n ==> held + taken + 1 >= size)
  {
    if held + n < size then n else if held < size then size - 1 - held else 0
  }

  /** The data that the host sends if it releases its block now, with block `block` being
      written by the target. */
  function SentBy(e: Attempt, block: nat, size0: nat, size1: nat): seq<byte>
    requires e.Fits(size0, size1) && block < 2
  {
    if block == 0 then e.Announced(1, size1) else e.Announced(0, size0)
  }

  /** Which of `polls` brings data to an empty down ring of `room` bytes: each at which the host
      has signalled waits for a switch, and the first switch with data ends the call. */
  function Arrives(polls: seq<Poll>, script: seq<Attempt>, block: nat, size0: nat, size1: nat, room: nat): Arrival
    requires (forall e :: e in script ==> e.Fits(size0, size1)) && block < 2
  {
    if polls == [] then Arrival(Running, [])
    else if polls[0].GivesUp() then Arrival(TimedOut, [])
    else if polls[0].pending && Wins(script) then
      var sent := SentBy(Winner(script), block, size0, size1);
      var taken := sent[..Taken(0, room, |sent|)];
      if taken != [] then Arrival(Served, taken)
      else Arrives(polls[1..], AfterWait(script), 1 - block, size0, size1, room)
    else Arrives(polls[1..], if polls[0].pending then AfterWait(script) else script, block, size0, size1, room)
  }

  ghost predicate FitAll(script: seq<Attempt>, size0: nat, size1: nat)
  {
    forall e :: e in script ==> e.Fits(size0, size1)
  }

  /** What an allocation hands out: room from `at` on in the current block, or `room` bytes of
      the pending ring. */
  datatype Slot = NoSlot | InBlock(at: nat) | InPend(at: nat, room: nat) {

    predicate Is(p: Plan) {
      match p
      case Deny(_) => NoSlot?
      case Block(at, _) => this == InBlock(at)
      case Ring(room, _) => InPend? && this.room == room
    }
  }

  /** What becomes of a packet. */
  datatype Verdict = Accepted | Declined | Outside

  function Least(a: int, b: int): int {
    if a < b then a else b
  }

  method Copy(src: array<byte>, from: nat, dst: array<byte>, to: nat, n: nat)
    requires src != dst && from + n <= src.Length && to + n <= dst.Length
    modifies dst
    ensures dst[..] == Patch(old(dst[..]), to, src[from..from + n])
  {
    forall i | 0 <= i < n {
      dst[to + i] := src[from + i];
    }
  }

  /** A ring request that is known to be available, and the `memcpy` behind it. */
  method Dequeue(ring: Ring, n: nat, dst: array<byte>, to: nat)
    requires ring.Valid() && ring.data != dst && to + n <= dst.Length
    requires n <= ring.State().Contiguous()
    modifies ring, dst
    ensures ring.Valid()
    ensures old(ring.Contents()) == dst[to..to + n] + ring.Contents()
    ensures dst[..] == Patch(old(dst[..]), to, dst[to..to + n])
    ensures ring.State() == old(ring.State()).Consumed(n)
  {
    ghost var c, q := ring.State(), ring.Contents();
    var ok, at := ring.Consume(n);
    RemoveQueue(c, ring.State(), at, n, ring.data[..]);
    Copy(ring.data, at, dst, to, n);
    assert dst[to..to + n] == q[..n];
  }

  /** A ring request that is known to be available, read in place. */
  method Drain(ring: Ring, n: nat) returns (bytes: seq<byte>)
    requires ring.Valid() && n <= ring.State().Contiguous()
    modifies ring
    ensures ring.Valid() && |bytes| == n
    ensures old(ring.Contents()) == bytes + ring.Contents()
    ensures old(ring.curSize == ring.data.Length) ==> ring.curSize == ring.data.Length
  {
    ghost var c := ring.State();
    var ok, at := ring.Consume(n);
    RemoveQueue(c, ring.State(), at, n, ring.data[..]);
    bytes := ring.data[at..at + n];
  }

  /** A ring request that is known to fit, and the `memcpy` that fills it. */
  method Enqueue(ring: Ring, n: nat, src: array<byte>, from: nat)
    requires ring.Valid() && ring.data != src && from + n <= src.Length
    requires ring.wr + n < TWO_32 && ring.State().CanProduce(n)
    modifies ring, ring.data
    ensures ring.Valid()
    ensures ring.Contents() == old(ring.Contents()) + src[from..from + n]
    ensures old(ring.rd > ring.wr || ring.wr + n <= ring.data.Length) ==>
              ring.curSize == old(ring.curSize) && ring.rd == old(ring.rd)
  {
    ghost var c, mem := ring.State(), ring.data[..];
    var ok, at := ring.Produce(n);
    Copy(src, from, ring.data, at, n);
    FillQueue(c, ring.State(), at, n, mem, src[from..from + n]);
  }

  lemma SliceGrows<T>(q: seq<T>, s: seq<T>, a: nat, b: nat, c: nat)
    requires a <= b <= c <= |s|
    ensures (q + s[a..b]) + s[b..c] == q + s[a..c]
  {
  }

  lemma PatchSlices<T>(s: seq<T>, at: nat, bytes: seq<T>)
    requires at + |bytes| <= |s|
    ensures Patch(s, at, bytes)[..at + |bytes|] == s[..at] + bytes
    ensures Patch(s, at, bytes)[at + |bytes|..] == s[at + |bytes|..]
  {
  }

  method Paste(dst: array<byte>, at: nat, bytes: seq<byte>)
    requires at + |bytes| <= dst.Length
    modifies dst
    ensures dst[..] == Patch(old(dst[..]), at, bytes)
  {
    forall i | 0 <= i < |bytes| {
      dst[at + i] := bytes[i];
    }
  }

  /** Overwriting part of the newest `n` bytes of a ring, which lie at `at`. */
  method PasteQueued(ring: Ring, at: nat, ghost n: nat, off: nat, bytes: seq<byte>)
    requires ring.Valid() && Newest(ring.State(), at, n) && off + |bytes| <= n
    modifies ring.data
    ensures ring.Valid() && ring.State().Length() >= n
    ensures ring.Contents() == Patch(old(ring.Contents()), ring.State().Length() - n + off, bytes)
  {
    ghost var mem := ring.data[..];
    Paste(ring.data, at + off, bytes);
    PatchQueue(ring.State(), at, n, mem, off, bytes);
  }

  /** The pumping loop of a switch: moves pending bytes, oldest first, to the start of a
      block until the block is full or nothing is pending. */
  method PumpPending(pend: Ring, blk: array<byte>) returns (marker: nat)
    requires pend.Valid() && pend.data != blk
    requires pend.data.Length + blk.Length < TWO_32
    modifies pend, blk
    ensures pend.Valid() && marker <= blk.Length
    ensures blk[..marker] + pend.Contents() == old(pend.Contents())
    ensures pend.Contents() == [] || marker == blk.Length
    ensures pend.State() == old(pend.State()).Pumped(blk.Length)
  {
    marker := 0;
    ghost var queued, goal := pend.Contents(), pend.State().Pumped(blk.Length);
    while marker < blk.Length
      invariant pend.Valid() && marker <= blk.Length
      invariant blk[..marker] + pend.Contents() == queued
      invariant pend.State().Pumped(blk.Length - marker) == goal
    {
      var moved := PumpOnce(pend, blk, marker, queued, goal);
      if moved == 0 {
        break;
      }
      marker := marker + moved;
    }
    PumpEnd(pend.State(), blk.Length - marker);
  }

  lemma PumpStep(c: Control, n: nat, room: nat)
    requires c.Ok() && 0 < n <= room && n <= c.Contiguous() && (n < room ==> n == c.Contiguous())
    ensures c.Pumped(room) == c.Consumed(n).Pumped(room - n)
  {
  }

  lemma PumpEnd(c: Control, room: nat)
    requires c.Ok() && (room == 0 || c.Contiguous() == 0)
    ensures c.Pumped(room) == c
  {
  }

  /** The body of the pumping loop. */
  method PumpOnce(pend: Ring, blk: array<byte>, marker: nat, ghost queued: seq<byte>, ghost goal: Control)
    returns (n: nat)
    requires pend.Valid() && pend.data != blk && pend.data.Length + blk.Length < TWO_32 && marker < blk.Length
    requires blk[..marker] + pend.Contents() == queued && pend.State().Pumped(blk.Length - marker) == goal
    modifies pend, blk
    ensures pend.Valid() && marker + n <= blk.Length
    ensures n == 0 <==> old(pend.Contents()) == []
    ensures n == 0 ==> pend.State() == old(pend.State())
    ensures blk[..marker + n] + pend.Contents() == queued
    ensures pend.State().Pumped(blk.Length - (marker + n)) == goal
  {
    n := pend.ReadSize();
    if n > blk.Length - marker {
      n := blk.Length - marker;
    }
    if n > 0 {
      MoveBytes(pend, blk, marker, n, queued, goal);
    }
  }

  method MoveBytes(pend: Ring, blk: array<byte>, marker: nat, n: nat, ghost queued: seq<byte>, ghost goal: Control)
    requires pend.Valid() && pend.data != blk && pend.data.Length + blk.Length < TWO_32
    requires 0 < n && marker + n <= blk.Length && n <= pend.State().Contiguous()
    requires marker + n < blk.Length ==> n == pend.State().Contiguous()
    requires blk[..marker] + pend.Contents() == queued && pend.State().Pumped(blk.Length - marker) == goal
    modifies pend, blk
    ensures pend.Valid() && pend.State().Pumped(blk.Length - (marker + n)) == goal
    ensures blk[..marker + n] + pend.Contents() == queued
  {
    ghost var before, c := blk[..], pend.State();
    PumpStep(c, n, blk.Length - marker);
    Dequeue(pend, n, blk, marker);
    assert pend.State() == c.Consumed(n);
    ghost var moved := blk[marker..marker + n];
    PatchSlices(before, marker, moved);
    AppendAssociates(before[..marker], moved, pend.Contents());
  }

  /** The next `n` bytes behind `total` that were taken over. */
  method EnqueueMore(down: Ring, n: nat, src: array<byte>, from: nat, total: nat, ghost queued: seq<byte>)
    requires down.Valid() && down.curSize == down.data.Length
    requires src != down.data && from + total + n <= src.Length
    requires down.wr + n < TWO_32 && down.State().CanProduce(n)
    requires down.rd > down.wr || down.wr + n <= down.data.Length
    requires down.Contents() == queued + src[from..from + total]
    modifies down, down.data
    ensures down.Valid() && down.curSize == down.data.Length && down.rd == old(down.rd)
    ensures down.Contents() == queued + src[from..from + total + n]
  {
    ghost var input := src[..];
    Enqueue(down, n, src, from + total);
    SliceGrows(queued, input, from, from + total, from + total + n);
    assert src[from..from + total + n] == input[from..from + total + n];
  }

  /** esp_apptrace_membufs_down_buffer_write_nolock: appends a prefix of the host's data;
      the prefix is short only when the ring is full. */
  method DownWrite(down: Ring, src: array<byte>, from: nat, size: nat) returns (total: nat)
    requires down.Valid() && down.curSize == down.data.Length
    requires src != down.data && from + size <= src.Length
    requires 2 * down.data.Length < TWO_32
    modifies down, down.data
    ensures down.Valid() && down.curSize == down.data.Length && down.rd == old(down.rd)
    ensures total == Taken(|old(down.Contents())|, down.data.Length, size)
    ensures down.Contents() == old(down.Contents()) + src[from..from + total]
  {
    ghost var queued := down.Contents();
    total := 0;
    while total < size
      invariant down.Valid() && down.curSize == down.data.Length && down.rd == old(down.rd)
      invariant total <= size
      invariant down.Contents() == queued + src[from..from + total]
    {
      var writeSize := down.WriteSize();
      if writeSize == 0 {
        break;
      }
      if writeSize > size - total {
        writeSize := size - total;
      }
      EnqueueMore(down, writeSize, src, from, total, queued);
      total := total + writeSize;
    }
    RingLimit(down.State());
  }

  /** A ring that has its full size keeps one byte free. */
  lemma RingLimit(c: Control)
    requires c.Ok() && c.curSize == c.size
    ensures c.Length() < c.size || c.size == 0 == c.Length()
  {
  }

  class Membufs {
    const blk0: array<byte>
    const blk1: array<byte>
    const pend: Ring
    const down: Ring
    var inBlock: u32
    var markers: seq<nat>

    // What the protocol is for: the bytes given to the host so far, the block that the
    // host is reading, the packets traced so far, the bytes taken over from the host and
    // those passed on to user code, and the number of switches.
    ghost var handed: seq<byte>
    ghost var shown: seq<byte>
    ghost var packets: seq<Packet>
    ghost var accepted: seq<byte>
    ghost var delivered: seq<byte>
    ghost var switches: nat

    /** The block that the target writes. */
    function Block(): array<byte>
      reads this`inBlock
    {
      if inBlock % 2 == 0 then blk0 else blk1
    }

    /** The block that the host reads. */
    function HostBlock(): array<byte>
      reads this`inBlock
    {
      if inBlock % 2 == 0 then blk1 else blk0
    }

    ghost predicate Layout()
      reads pend, down
    {
      && HEADER <= blk0.Length < TWO_32 / 2 && HEADER <= blk1.Length < TWO_32 / 2
      && blk0 != blk1 && blk0 != pend.data && blk0 != down.data
      && blk1 != pend.data && blk1 != down.data && pend.data != down.data && pend != down
      && pend.data.Length < TWO_32 / 2 && down.data.Length < TWO_32 / 2
      && pend.Valid() && down.Valid() && down.curSize == down.data.Length
    }

    ghost function Level(): Level
      reads this, pend
      requires |markers| == 2
    {
      TraceAlloc.Level(Marker(), Block().Length, HostBlock().Length, pend.State())
    }

    /** Fill level of the block that the target writes. */
    function Marker(): nat
      reads this
      requires |markers| == 2
    {
      markers[inBlock % 2]
    }

    /** What holds at every step, also while a packet is being written. */
    ghost predicate Sound()
      reads this, pend, down, pend.data, down.data, blk0, blk1
    {
      && Layout()
      && |markers| == 2 && Marker() <= Block().Length
      && (pend.Contents() != [] ==> Marker() > 0)
      && HostBlock()[..] == shown
      && accepted == delivered + down.Contents()
    }

    /** The trace stream: bytes given to the host, then the current block up to its
        marker, then the pending bytes. */
    ghost function Stream(): seq<byte>
      reads this, pend, pend.data, blk0, blk1
      requires |markers| == 2 && pend.Valid() && Marker() <= Block().Length
    {
      handed + Block()[..Marker()] + pend.Contents()
    }

    /** Between calls the stream is exactly the framed packets, in allocation order. */
    ghost predicate Valid()
      reads this, pend, down, pend.data, down.data, blk0, blk1
    {
      && Sound()
      && (forall p :: p in packets ==> p.Ok())
      && Stream() == FrameAll(packets)
    }

    /** esp_apptrace_membufs_init and esp_apptrace_membufs_down_buffer_config */
    constructor (block0: array<byte>, block1: array<byte>, pending: array<byte>, fromHost: array<byte>)
      requires HEADER <= block0.Length < TWO_32 / 2 && HEADER <= block1.Length < TWO_32 / 2
      requires block0 != block1 && block0 != pending && block0 != fromHost
      requires block1 != pending && block1 != fromHost && pending != fromHost
      requires pending.Length < TWO_32 / 2 && fromHost.Length < TWO_32 / 2
      ensures Valid() && fresh(this) && fresh(pend) && fresh(down)
      ensures packets == [] && handed == [] && accepted == [] && delivered == []
      ensures blk0 == block0 && blk1 == block1 && pend.data == pending && down.data == fromHost
      ensures Level()
              == TraceAlloc.Level(0, block0.Length, block1.Length, Control(pending.Length, pending.Length, 0, 0))
    {
      blk0, blk1 := block0, block1;
      pend := new Ring(pending);
      down := new Ring(fromHost);
      inBlock := 0;
      markers := [0, 0];
      handed, packets, accepted, delivered := [], [], [], [];
      switches := 0;
      shown := block1[..];
    }

    /** What a switch does: the filled part of the current block goes to the host, the block
        stays as it is for the host to read, and pending bytes move to the other block. */
    twostate predicate Switched()
      requires old(Sound()) && Sound()
      reads this, pend, down, pend.data, down.data, blk0, blk1
    {
      && switches == old(switches) + 1
      && inBlock == Add32(old(inBlock), 1)
      && handed == old(handed) + old(Block()[..Marker()])
      && shown == old(Block()[..])
      && Block()[..Marker()] + pend.Contents() == old(pend.Contents())
      && (pend.Contents() == [] || Marker() == Block().Length)
      && Level() == old(Level()).Switched()
      && packets == old(packets) && delivered == old(delivered)
    }

    /** As long as there is no switch, the host's block is the same and its content stays; and
        what was taken over from the host is kept. */
    twostate predicate HostSafe()
      reads this
    {
      && old(switches) <= switches && old(handed) <= handed && old(accepted) <= accepted
      && (switches == old(switches) ==> inBlock == old(inBlock) && shown == old(shown) && handed == old(handed))
    }

    /** Nothing that the trace stream or the host's view depends on has changed. */
    twostate predicate Untouched()
      reads this, pend, down, pend.data, down.data, blk0, blk1
    {
      unchanged(this, pend, down, pend.data, down.data, blk0, blk1)
    }

    /** The part of a switch that handles data from the host. */
    method TakeHostData(blk: array<byte>, pending: bool, ghost sent: seq<byte>)
      requires Layout() && blk in {blk0, blk1} && accepted == delivered + down.Contents()
      requires pending ==> HOST_HEADER + FromLe16(blk[..HOST_HEADER]) <= blk.Length
      requires sent == if pending then blk[HOST_HEADER..HOST_HEADER + FromLe16(blk[..HOST_HEADER])] else []
      modifies this`accepted, down, down.data, blk
      ensures Layout() && accepted == delivered + down.Contents()
      ensures Takes(sent)
      ensures sent != [] ==> FromLe16(blk[..HOST_HEADER]) == 0
    {
      if pending {
        var size := FromLe16(blk[..HOST_HEADER]);
        if size > 0 {
          var total := DownWrite(down, blk, HOST_HEADER, size);
          accepted := accepted + blk[HOST_HEADER..HOST_HEADER + total];
          blk[0], blk[1] := 0, 0;
        }
      }
    }

    /** The down buffer took over as many of the host's data as it has room for. */
    twostate predicate Takes(sent: seq<byte>)
      requires old(Layout()) && Layout()
      reads this, pend, down, pend.data, down.data
    {
      && down.rd == old(down.rd)
      && accepted == old(accepted) + sent[..Taken(|old(down.Contents())|, down.data.Length, |sent|)]
    }

    /** The data that the host sends if it releases its block now. */
    ghost function Sent(e: Attempt): seq<byte>
      reads this`inBlock
      requires e.Fits(blk0.Length, blk1.Length)
    {
      SentBy(e, inBlock % 2, blk0.Length, blk1.Length)
    }

    /** The part of a switch that gives the current block to the host and takes back the
        other one, which the host has left as `image`. */
    method Exchange(image: seq<byte>)
      requires Layout() && |markers| == 2 && Marker() <= Block().Length && |image| == HostBlock().Length
      modifies this`inBlock, this`markers, this`handed, this`shown, this`switches, HostBlock()
      ensures |markers| == 2 && Marker() == 0
      ensures inBlock == Add32(old(inBlock), 1)
      ensures Block() == old(HostBlock()) && HostBlock() == old(Block())
      ensures Block()[..] == image
      ensures handed == old(handed) + old(Block()[..Marker()])
      ensures shown == old(Block()[..])
      ensures switches == old(switches) + 1
    {
      var prev := inBlock % 2;
      var next := if prev != 0 then 0 else 1;
      handed := handed + Block()[..markers[prev]];
      shown := Block()[..];
      var blk := HostBlock();
      forall i | 0 <= i < blk.Length {
        blk[i] := image[i];
      }
      markers := markers[next := 0];
      inBlock := Add32(inBlock, 1);
      switches := switches + 1;
    }

    /** esp_apptrace_membufs_swap */
    method Swap(e: Attempt) returns (ok: bool)
      requires Sound() && e.Fits(blk0.Length, blk1.Length)
      modifies this, pend, down, pend.data, down.data, blk0, blk1
      ensures Sound()
      ensures ok == e.Granted?
      ensures !ok ==> Untouched()
      ensures ok ==> Switched() && Takes(old(Sent(e)))
    {
      if e.Refused? {
        return false;
      }
      ghost var sent, l := Sent(e), Level();
      Exchange(e.images[1 - inBlock % 2]);
      Refill(e.pending, sent);
      ok := true;
      assert Level() == l.Switched();
    }

    /** The part of a switch that works on the new current block. */
    method Refill(pending: bool, ghost sent: seq<byte>)
      requires Layout() && |markers| == 2 && accepted == delivered + down.Contents()
      requires pending ==> HOST_HEADER + FromLe16(Block()[..HOST_HEADER]) <= Block().Length
      requires sent == if pending then Block()[HOST_HEADER..HOST_HEADER + FromLe16(Block()[..HOST_HEADER])] else []
      modifies this`accepted, this`markers, pend, down, down.data, Block()
      ensures Layout() && |markers| == 2 && Marker() <= Block().Length
      ensures accepted == delivered + down.Contents() && Takes(sent)
      ensures Block()[..Marker()] + pend.Contents() == old(pend.Contents())
      ensures pend.Contents() == [] || Marker() == Block().Length
      ensures pend.State() == old(pend.State()).Pumped(Block().Length)
      ensures Marker() + pend.State().Length() == old(pend.State()).Length()
    {
      TakeHostData(Block(), pending, sent);
      var marker := PumpPending(pend, Block());
      markers := markers[inBlock % 2 := marker];
    }

    /** One attempt, and what it means for the stream. */
    method SwapOnce(e: Attempt) returns (ok: bool)
      requires Sound() && e.Fits(blk0.Length, blk1.Length)
      modifies this, pend, down, pend.data, down.data, blk0, blk1
      ensures Sound() && ok == e.Granted?
      ensures !ok ==> Untouched()
      ensures ok ==> Switched() && Takes(old(Sent(e)))
      ensures ok ==> Stream() == old(Stream()) && Backlog() == old(Backlog() - Marker())
    {
      ok := Swap(e);
      if ok {
        SwitchKeepsStream();
      }
    }

    /** esp_apptrace_membufs_swap_waitus */
    method SwapWait(script: seq<Attempt>) returns (ok: bool, rest: seq<Attempt>)
      requires Sound() && FitAll(script, blk0.Length, blk1.Length)
      modifies this, pend, down, pend.data, down.data, blk0, blk1
      ensures Sound() && FitAll(rest, blk0.Length, blk1.Length)
      ensures ok == Wins(script)
      ensures !ok ==> Untouched()
      ensures ok ==> Switched() && Takes(old(Sent(Winner(script))))
      ensures ok ==> Stream() == old(Stream()) && Backlog() == old(Backlog() - Marker())
      ensures rest == AfterWait(script)
    {
      rest := script;
      while rest != []
        invariant FitAll(rest, blk0.Length, blk1.Length)
        invariant Untouched() && Wins(rest) == Wins(script) && AfterWait(rest) == AfterWait(script)
        invariant Wins(script) ==> Winner(rest) == Winner(script)
      {
        var e := rest[0];
        rest := rest[1..];
        ok := SwapOnce(e);
        if ok {
          return;
        }
        if e.expired {
          return;
        }
      }
      ok := false;
    }

    /** Bytes that are traced but not yet given to the host. */
    ghost function Backlog(): nat
      reads this, pend
      requires |markers| == 2 && pend.Valid()
    {
      Marker() + pend.State().Length()
    }

    /** esp_apptrace_membufs_flush_nolock. Every switch gives at least one byte to the host,
        so the loop ends. It succeeds if and only if as many switches are granted in time as it
        takes, and makes no more of them; a successful flush of everything leaves nothing
        behind. */
    method Flush(minSize: nat, script: seq<Attempt>) returns (ok: bool, rest: seq<Attempt>)
      requires Valid() && FitAll(script, blk0.Length, blk1.Length)
      modifies this, pend, down, pend.data, down.data, blk0, blk1
      ensures Valid() && packets == old(packets)
      ensures HostSafe()
      ensures old(Marker()) < minSize ==> ok && Untouched()
      ensures old(Marker()) >= minSize && ok ==> Marker() <= minSize
      ensures ok && minSize == 0 ==>
                && Marker() == 0 && pend.Contents() == [] && handed == FrameAll(packets)
                && (Deframe(handed) == packets <==> forall p :: p in packets ==> p.Short())
      ensures (forall e :: e in script ==> e.Granted?) && |script| >= old(Backlog()) ==> ok
      ensures var n := Needed(old(Level()), minSize);
              && (ok <==> Grants(script) >= n)
              && switches - old(switches) == if ok then n else Grants(script)
    {
      rest := script;
      ok := true;
      if Marker() < minSize {
        return;
      }
      while Marker() > minSize
        invariant Valid() && FitAll(rest, blk0.Length, blk1.Length)
        invariant packets == old(packets) && HostSafe()
        invariant (forall e :: e in script ==> e.Granted?) && |script| >= old(Backlog())
                  ==> (forall e :: e in rest ==> e.Granted?) && |rest| >= Backlog()
        invariant Grants(script) == switches - old(switches) + Grants(rest)
        invariant Needed(old(Level()), minSize) == switches - old(switches) + Needed(Level(), minSize)
        decreases Backlog()
      {
        GrantsByWaits(rest);
        ok, rest := SwapWait(rest);
        if !ok {
          return;
        }
      }
      DeframeFrameAllIff(packets);
    }

    /** A switch neither loses, duplicates nor reorders bytes. */
    twostate lemma SwitchKeepsStream()
      requires old(Sound()) && Sound() && Switched()
      ensures Stream() == old(Stream())
      ensures Backlog() == old(Backlog()) - old(Marker())
    {
      AppendAssociates(handed, Block()[..Marker()], pend.Contents());
      assert Stream() == handed + old(pend.Contents());
      assert |Block()[..Marker()] + pend.Contents()| == |old(pend.Contents())|;
    }

    /** The slot holds the newest `n` bytes of the stream. */
    ghost predicate Allocated(slot: Slot, n: nat)
      reads this, pend, pend.data
      requires |markers| == 2 && pend.Valid()
    {
      match slot
      case NoSlot => false
      case InBlock(at) => pend.Contents() == [] && at + n == Marker()
      case InPend(at, room) => room == n && Newest(pend.State(), at, n)
    }

    /** `n` bytes have been added to a stream. */
    ghost predicate Extends(before: seq<byte>, n: nat)
      reads this, pend, pend.data, blk0, blk1
      requires |markers| == 2 && pend.Valid() && Marker() <= Block().Length
    {
      |Stream()| == |before| + n && Stream()[..|before|] == before
    }

    /** `n` bytes have been allocated behind a stream. */
    ghost predicate Got(slot: Slot, before: seq<byte>, n: nat)
      reads this, pend, down, pend.data, down.data, blk0, blk1
    {
      Sound() && Allocated(slot, n) && Extends(before, n)
    }

    /** An allocation of `raw` bytes behind a stream has gone as planned: without a slot the
        stream is as before, and with one that holds the packet, the slot is its new end. */
    ghost predicate Follows(slot: Slot, raw: nat, p: Plan, before: seq<byte>)
      reads this, pend, down, pend.data, down.data, blk0, blk1
    {
      && |markers| == 2 && slot.Is(p) && Level() == p.after
      && (p.Deny? ==> Sound() && Stream() == before)
      && (!p.Deny? && p.Inside(raw) ==> Got(slot, before, raw))
    }

    /** A `produce` call on the pending ring. */
    method ReservePend(n: nat) returns (slot: Slot)
      requires Sound() && n < TWO_32 / 2
      modifies pend
      ensures slot.NoSlot? <==> !old(pend.State()).CanProduce(n)
      ensures slot.NoSlot? ==> Sound() && Level() == old(Level())
      ensures !slot.NoSlot? ==> slot.InPend? && slot.room == n && Level() == old(Level()).Pended(n)
      ensures !slot.NoSlot? && Marker() > 0 ==> Got(slot, old(Stream()), n)
    {
      ghost var c := pend.State();
      var ok, at := pend.Produce(n);
      if ok {
        AppendQueue(c, pend.State(), at, n, pend.data[..]);
        slot := InPend(at, n);
      } else {
        slot := NoSlot;
      }
    }

    /** Space behind the marker of the current block. */
    method ReserveBlock(n: nat) returns (slot: Slot)
      requires Sound() && pend.Contents() == []
      modifies this`markers
      ensures |markers| == 2 && slot == InBlock(old(Marker())) && Level() == old(Level()).Filled(n)
      ensures Marker() <= Block().Length ==> Got(slot, old(Stream()), n)
    {
      slot := InBlock(Marker());
      markers := markers[inBlock % 2 := Marker() + n];
    }

    /** esp_apptrace_membufs_wait4buf, with the marker update that follows it. */
    method Wait4Buf(raw: nat, script: seq<Attempt>) returns (slot: Slot, rest: seq<Attempt>)
      requires Sound() && FitAll(script, blk0.Length, blk1.Length) && raw < TWO_32 / 2
      requires pend.Contents() == [] ==> !pend.State().CanProduce(raw)
      modifies this, pend, down, pend.data, down.data, blk0, blk1
      ensures FitAll(rest, blk0.Length, blk1.Length) && packets == old(packets)
      ensures HostSafe() && delivered == old(delivered)
      ensures var p := WaitPlan(old(Level()), raw, Wins(script));
              Follows(slot, raw, p, old(Stream()))
    {
      var ok;
      ok, rest := SwapWait(script);
      if !ok {
        return NoSlot, rest;
      }
      slot := RoomAfterSwitch(raw);
    }

    /** The part of wait4buf that follows a switch. */
    method RoomAfterSwitch(raw: nat) returns (slot: Slot)
      requires Sound() && raw < TWO_32 / 2
      requires pend.Contents() == [] && Marker() == 0 ==> !pend.State().CanProduce(raw)
      modifies this`markers, pend
      ensures var l, n := old(Level()), raw % TWO_16;
              var p := if l.ring.Length() > 0 || l.marker + n > l.len then
                         if l.ring.CanProduce(n) then Plan.Ring(n, l.Pended(n)) else Deny(l)
                       else Plan.Block(l.marker, l.Filled(raw));
              Follows(slot, raw, p, old(Stream()))
    {
      var n := raw % TWO_16;
      var pending := pend.ReadSize();
      if pending > 0 {
        slot := ReservePend(n);
      } else if Marker() + n > Block().Length {
        slot := ReservePend(n);
      } else {
        slot := ReserveBlock(raw);
      }
    }

    /** The first step of an allocation: one attempt to switch if bytes are pending. */
    method TrySwitch(script: seq<Attempt>) returns (rest: seq<Attempt>)
      requires Sound() && FitAll(script, blk0.Length, blk1.Length)
      modifies this, pend, down, pend.data, down.data, blk0, blk1
      ensures Sound() && FitAll(rest, blk0.Length, blk1.Length) && packets == old(packets)
      ensures HostSafe() && delivered == old(delivered)
      ensures Stream() == old(Stream())
      ensures Level() == Tried(old(Level()), script) && rest == AfterTry(old(Level()), script)
      ensures old(pend.Contents()) != [] ==> Marker() > 0
    {
      rest := script;
      var pending := pend.ReadSize();
      if pending > 0 && rest != [] {
        var switched := Swap(rest[0]);
        rest := rest[1..];
        if switched {
          SwitchKeepsStream();
        }
      }
    }

    /** Both paths of an allocation that cannot use the current block: the pending ring,
        or, when that has no room, a switch. */
    method PendOrWait(raw: nat, script: seq<Attempt>) returns (slot: Slot, rest: seq<Attempt>)
      requires Sound() && FitAll(script, blk0.Length, blk1.Length) && Marker() > 0 && raw < TWO_32 / 2
      modifies this, pend, down, pend.data, down.data, blk0, blk1
      ensures FitAll(rest, blk0.Length, blk1.Length) && packets == old(packets)
      ensures HostSafe() && delivered == old(delivered)
      ensures var l := old(Level());
              var p := if l.ring.CanProduce(raw) then Plan.Ring(raw, l.Pended(raw))
                       else WaitPlan(l, raw, Wins(script));
              Follows(slot, raw, p, old(Stream()))
    {
      rest := script;
      slot := ReservePend(raw);
      if slot.NoSlot? {
        slot, rest := Wait4Buf(raw, rest);
      }
    }

    /** esp_apptrace_membufs_up_buffer_get: allocates `size` bytes of user data and their
        header at the end of the stream, or leaves the stream alone. */
    method UpBufferGet(size: nat, script: seq<Attempt>) returns (slot: Slot, rest: seq<Attempt>)
      requires Sound() && FitAll(script, blk0.Length, blk1.Length)
      modifies this, pend, down, pend.data, down.data, blk0, blk1
      ensures FitAll(rest, blk0.Length, blk1.Length) && packets == old(packets)
      ensures HostSafe() && delivered == old(delivered)
      ensures var p := GetPlan(old(Level()), size + HEADER, script);
              Follows(slot, size + HEADER, p, old(Stream()))
      ensures size + HEADER > old(Block()).Length ==> Untouched()
    {
      rest := script;
      ghost var raw, p, before := size + HEADER, GetPlan(Level(), size + HEADER, script), Stream();
      if size > Block().Length - HEADER {
        assert p == Deny(Level());
        return NoSlot, rest;
      }
      assert raw <= Block().Length;
      slot, rest := TryAndFind(size + HEADER, script);
      assert Follows(slot, raw, p, before);
    }

    /** The part of up_buffer_get that follows the check of the size. */
    method TryAndFind(raw: nat, script: seq<Attempt>) returns (slot: Slot, rest: seq<Attempt>)
      requires Sound() && FitAll(script, blk0.Length, blk1.Length) && raw <= Block().Length
      modifies this, pend, down, pend.data, down.data, blk0, blk1
      ensures FitAll(rest, blk0.Length, blk1.Length) && packets == old(packets)
      ensures HostSafe() && delivered == old(delivered)
      ensures var p := GetPlan(old(Level()), raw, script);
              Follows(slot, raw, p, old(Stream()))
    {
      rest := TrySwitch(script);
      slot, rest := FindRoom(raw, rest);
    }

    /** The part of up_buffer_get that follows the attempt to switch. */
    method FindRoom(raw: nat, script: seq<Attempt>) returns (slot: Slot, rest: seq<Attempt>)
      requires Sound() && FitAll(script, blk0.Length, blk1.Length) && raw < TWO_32 / 2
      requires Marker() == 0 ==> raw <= Block().Length
      modifies this, pend, down, pend.data, down.data, blk0, blk1
      ensures FitAll(rest, blk0.Length, blk1.Length) && packets == old(packets)
      ensures HostSafe() && delivered == old(delivered)
      ensures var l := old(Level());
              var p := if l.ring.Length() > 0 || l.marker + raw > l.len then
                         if l.ring.CanProduce(raw) then Plan.Ring(raw, l.Pended(raw))
                         else WaitPlan(l, raw, Wins(script))
                       else Plan.Block(l.marker, l.Filled(raw));
              Follows(slot, raw, p, old(Stream()))
    {
      rest := script;
      var pending := pend.ReadSize();
      if pending > 0 || Marker() + raw > Block().Length {
        slot, rest := PendOrWait(raw, rest);
      } else {
        slot := ReserveBlock(raw);
      }
    }

    /** The stream is `before`, followed by the bytes `tail` of an allocated slot. */
    ghost predicate Open(slot: Slot, before: seq<byte>, tail: seq<byte>)
      reads this, pend, down, pend.data, down.data, blk0, blk1
    {
      Sound() && Allocated(slot, |tail|) && Stream() == before + tail
    }

    /** Storing bytes in an allocated slot changes exactly those bytes of the stream. */
    method Store(slot: Slot, off: nat, bytes: seq<byte>, ghost before: seq<byte>, ghost tail: seq<byte>)
      requires Open(slot, before, tail) && off + |bytes| <= |tail|
      modifies pend.data, Block()
      ensures Open(slot, before, Patch(tail, off, bytes))
    {
      if slot.InBlock? {
        StoreBlock(slot.at, off, bytes, before, tail);
      } else {
        StorePend(slot.at, off, bytes, before, tail);
      }
    }

    /** Reading back part of an allocated slot. */
    method Load(slot: Slot, off: nat, len: nat, ghost before: seq<byte>, ghost tail: seq<byte>)
      returns (bytes: seq<byte>)
      requires Open(slot, before, tail) && off + len <= |tail|
      ensures bytes == tail[off..off + len]
    {
      var mem := if slot.InBlock? then Block() else pend.data;
      bytes := mem[slot.at + off..slot.at + off + len];
      SliceBehind(before, tail, off, len);
      ghost var front := handed + Block()[..Marker()];
      if slot.InBlock? {
        SliceBehind(handed, Block()[..Marker()], slot.at + off, len);
        assert Stream() == front;
      } else {
        var from := pend.State().Length() - |tail| + off;
        SliceBehind(front, pend.Contents(), from, len);
        NewestSlice(pend.State(), slot.at, |tail|, pend.data[..], off, len);
      }
    }

    /** Filling allocated space leaves the control fields and the other parts alone. */
    twostate lemma KeepsSound()
      requires old(Sound()) && unchanged(this, pend, down, down.data, HostBlock())
      requires |pend.Contents()| == |old(pend.Contents())|
      ensures Sound()
    {
    }

    method StoreBlock(at: nat, off: nat, bytes: seq<byte>, ghost before: seq<byte>, ghost tail: seq<byte>)
      requires Open(InBlock(at), before, tail) && off + |bytes| <= |tail|
      modifies Block()
      ensures Open(InBlock(at), before, Patch(tail, off, bytes))
    {
      ghost var front := Block()[..Marker()];
      PatchEnd(Stream(), before, tail, off, bytes);
      Paste(Block(), at + off, bytes);
      KeepsSound();
      assert Block()[..Marker()] == Patch(front, at + off, bytes);
      PatchInside(handed, front, pend.Contents(), at + off, bytes);
    }

    method StorePend(at: nat, off: nat, bytes: seq<byte>, ghost before: seq<byte>, ghost tail: seq<byte>)
      requires Open(InPend(at, |tail|), before, tail) && off + |bytes| <= |tail|
      modifies pend.data
      ensures Open(InPend(at, |tail|), before, Patch(tail, off, bytes))
    {
      PatchEnd(Stream(), before, tail, off, bytes);
      PastePend(at, |tail|, off, bytes);
    }

    method PastePend(at: nat, ghost n: nat, off: nat, bytes: seq<byte>)
      requires Sound() && Newest(pend.State(), at, n) && off + |bytes| <= n
      modifies pend.data
      ensures Sound() && Newest(pend.State(), at, n)
      ensures |Stream()| == |old(Stream())| >= n
      ensures Stream() == Patch(old(Stream()), |old(Stream())| - n + off, bytes)
    {
      ghost var front, queue := handed + Block()[..Marker()], pend.Contents();
      PasteQueued(pend, at, n, off, bytes);
      KeepsSound();
      PatchNewest(front, queue, n, off, bytes);
    }

    /** esp_apptrace_membufs_pkt_start: the size of the block, and nothing written yet. */
    method PktStart(slot: Slot, core: nat, size: nat, ghost before: seq<byte>, ghost tail: seq<byte>)
      requires Open(slot, before, tail) && |tail| == size + HEADER && core < 2
      modifies pend.data, Block()
      ensures Open(slot, before, Patch(tail, 0, Le16(SizeWord(core, size % TWO_16)) + Le16(0)))
    {
      Store(slot, 0, Le16(SizeWord(core, size % TWO_16)) + Le16(0), before, tail);
    }

    /** esp_apptrace_membufs_pkt_end: everything allocated has been written. */
    method PktEnd(slot: Slot, ghost before: seq<byte>, ghost tail: seq<byte>)
      requires Open(slot, before, tail) && |tail| >= HEADER
      modifies pend.data, Block()
      ensures Open(slot, before, Patch(tail, 2, tail[..2]))
    {
      var size := Load(slot, 0, 2, before, tail);
      Store(slot, 2, size, before, tail);
    }

    /** The three writes that turn an allocated slot into a finished packet. */
    method WritePacket(slot: Slot, core: nat, data: seq<byte>, ghost before: seq<byte>, ghost space: seq<byte>)
      requires Open(slot, before, space) && |space| == |data| + HEADER
      requires core < 2
      modifies pend.data, Block()
      ensures Open(slot, before, Packet(core, data).Frame())
    {
      ghost var p := Packet(core, data);
      PktStart(slot, core, |data|, before, space);
      ghost var started := Patch(space, 0, Le16(p.Size()) + Le16(0));
      Store(slot, HEADER, data, before, started);
      PktEnd(slot, before, Patch(started, HEADER, data));
      FrameByParts(space, p);
    }

    /** Whether a packet of `raw` bytes stays inside of its slot. */
    predicate Inside(slot: Slot, raw: nat)
      reads this`inBlock
    {
      match slot
      case NoSlot => true
      case InBlock(at) => at + raw <= Block().Length
      case InPend(_, room) => raw <= room
    }

    /** One traced packet: allocate, write the data, finish, with the channel locked
        throughout. A packet that is accepted joins the stream behind all earlier ones, and a
        packet that is declined leaves no trace; the fill levels decide which. Where the source
        would write outside of what the packet got, the model stops. */
    method Trace(core: nat, data: seq<byte>, script: seq<Attempt>) returns (verdict: Verdict, rest: seq<Attempt>)
      requires Valid() && FitAll(script, blk0.Length, blk1.Length) && core < 2
      modifies this, pend, down, pend.data, down.data, blk0, blk1
      ensures FitAll(rest, blk0.Length, blk1.Length) && HostSafe() && delivered == old(delivered)
      ensures verdict != Outside ==>
                Valid() && packets == old(packets) + (if verdict == Accepted then [Packet(core, data)] else [])
      ensures |markers| == 2
      ensures var raw := |data| + HEADER;
              var p := GetPlan(old(Level()), raw, script);
              && Level() == p.after
              && verdict == if p.Deny? then Declined else if p.Inside(raw) then Accepted else Outside
    {
      var slot;
      ghost var before, p := Stream(), GetPlan(Level(), |data| + HEADER, script);
      slot, rest := UpBufferGet(|data|, script);
      assert Follows(slot, |data| + HEADER, p, before);
      if slot.NoSlot? {
        return Declined, rest;
      }
      if !Inside(slot, |data| + HEADER) {
        return Outside, rest;
      }
      FillSlot(core, data, slot, before);
      verdict := Accepted;
    }

    /** Writing an allocated packet. */
    method FillSlot(core: nat, data: seq<byte>, slot: Slot, ghost before: seq<byte>)
      requires Got(slot, before, |data| + HEADER) && core < 2
      requires (forall p :: p in packets ==> p.Ok()) && before == FrameAll(packets)
      modifies this`packets, pend.data, Block()
      ensures Valid() && packets == old(packets) + [Packet(core, data)] && Level() == old(Level())
    {
      ghost var space := Stream()[|before|..];
      assert Stream() == before + space;
      WritePacket(slot, core, data, before, space);
      FrameAllAppend(packets, Packet(core, data));
      packets := packets + [Packet(core, data)];
    }

    /** How a call for data from the host goes on: with the data in the down ring, or with
        those that arrive. */
    ghost function Expected(polls: seq<Poll>, script: seq<Attempt>): Arrival
      reads this, pend, down, pend.data, down.data
      requires Layout() && FitAll(script, blk0.Length, blk1.Length)
    {
      if down.Contents() != [] then Arrival(Served, down.Contents())
      else Arrives(polls, script, inBlock % 2, blk0.Length, blk1.Length, down.data.Length)
    }

    /** esp_apptrace_membufs_down_buffer_get: passes on the oldest bytes from the host, in
        order and each once, as many as lie in one piece; if there are none it switches blocks
        as long as the host signals more. The trace stream is not affected. The time is looked
        at only while the host signals nothing: the call gives up exactly at such a poll, and
        if `polls` end before, it is still running. */
    method DownBufferGet(size: nat, script: seq<Attempt>, polls: seq<Poll>)
      returns (outcome: Outcome, bytes: seq<byte>, rest: seq<Attempt>)
      requires Valid() && FitAll(script, blk0.Length, blk1.Length)
      modifies this, pend, down, pend.data, down.data, blk0, blk1
      ensures Valid() && FitAll(rest, blk0.Length, blk1.Length) && packets == old(packets)
      ensures HostSafe()
      ensures delivered == old(delivered) + bytes
      ensures var a := old(Expected(polls, script));
              && outcome == a.outcome && accepted == old(delivered) + a.bytes
              && bytes == a.bytes[..Least(size, Least(|a.bytes|, down.data.Length - old(down.rd)))]
    {
      rest := script;
      var i := 0;
      while true
        invariant i <= |polls| && Valid() && FitAll(rest, blk0.Length, blk1.Length) && packets == old(packets)
        invariant HostSafe() && delivered == old(delivered) && down.rd == old(down.rd)
        invariant Expected(polls[i..], rest) == old(Expected(polls, script))
        decreases |polls| - i
      {
        var served;
        served, bytes := TryTake(size);
        if served {
          return Served, bytes, rest;
        }
        if i == |polls| {
          return Running, [], rest;
        }
        var gaveUp;
        gaveUp, rest := HostRound(polls[i..], rest);
        if gaveUp {
          return TimedOut, [], rest;
        }
        assert polls[i..][1..] == polls[i + 1..];
        i := i + 1;
      }
    }

    /** A round in which there are no data: a switch is tried if the host has signalled some,
        and otherwise the time is looked at. */
    method HostRound(polls: seq<Poll>, script: seq<Attempt>) returns (gaveUp: bool, rest: seq<Attempt>)
      requires Valid() && FitAll(script, blk0.Length, blk1.Length) && polls != [] && down.Contents() == []
      modifies this, pend, down, pend.data, down.data, blk0, blk1
      ensures Valid() && FitAll(rest, blk0.Length, blk1.Length) && packets == old(packets)
      ensures HostSafe() && delivered == old(delivered) && down.rd == old(down.rd)
      ensures gaveUp <==> polls[0].GivesUp()
      ensures gaveUp ==> Untouched()
      ensures !gaveUp ==> Expected(polls[1..], rest) == old(Expected(polls, script))
    {
      rest := script;
      gaveUp := false;
      if polls[0].pending {
        rest := SwapForData(polls, script);
      } else if polls[0].expired {
        gaveUp := true;
      }
    }

    method SwapForData(ghost polls: seq<Poll>, script: seq<Attempt>) returns (rest: seq<Attempt>)
      requires Valid() && FitAll(script, blk0.Length, blk1.Length)
      requires polls != [] && polls[0].pending && down.Contents() == []
      modifies this, pend, down, pend.data, down.data, blk0, blk1
      ensures Valid() && FitAll(rest, blk0.Length, blk1.Length) && packets == old(packets)
      ensures HostSafe() && delivered == old(delivered) && down.rd == old(down.rd)
      ensures Expected(polls[1..], rest) == old(Expected(polls, script))
    {
      ghost var sent := if Wins(script) then Sent(Winner(script)) else [];
      assert accepted == delivered;
      var switched;
      switched, rest := SwapWait(script);
      if switched {
        SameEnd(delivered, down.Contents(), sent[..Taken(0, down.data.Length, |sent|)]);
      }
    }

    /** The oldest bytes from the host, if there are any. */
    method TryTake(size: nat) returns (served: bool, bytes: seq<byte>)
      requires Valid()
      modifies this`delivered, down
      ensures Valid() && delivered == old(delivered) + bytes
      ensures served <==> old(down.Contents()) != []
      ensures bytes == var q := old(down.Contents()); q[..Least(size, Least(|q|, down.data.Length - old(down.rd)))]
      ensures !served ==> unchanged(this, down)
    {
      var available := down.ReadSize();
      served, bytes := available != 0, [];
      if served {
        InOnePiece(down.State());
        bytes := TakeDown(if size < available then size else available);
      }
    }

    method TakeDown(n: nat) returns (bytes: seq<byte>)
      requires Valid() && n <= down.State().Contiguous()
      modifies this`delivered, down
      ensures Valid() && bytes == old(down.Contents())[..n]
      ensures delivered == old(delivered) + bytes
    {
      bytes := Drain(down, n);
      AppendAssociates(delivered, bytes, down.Contents());
      delivered := delivered + bytes;
    }
  }

  /** Data arrive only at a poll with a signal and from an attempt that announces some, and only
      if the down ring holds any; without data, the call gives up if it meets such a poll, and is
      running otherwise. */
  lemma {:induction false} ArrivesEnds(polls: seq<Poll>, script: seq<Attempt>, block: nat,
                                       size0: nat, size1: nat, room: nat)
    requires FitAll(script, size0, size1) && block < 2
    ensures var a := Arrives(polls, script, block, size0, size1, room);
            && (a.outcome == Served <==> a.bytes != [])
            && (a.outcome == Served ==> room > 1 && (exists p :: p in polls && p.pending)
                                        && exists e :: e in script && e.Granted? && e.pending)
            && (a.outcome == TimedOut ==> exists p :: p in polls && p.GivesUp())
            && (a.outcome == Running ==> forall p :: p in polls ==> !p.GivesUp())
  {
    if polls != [] && !polls[0].GivesUp() {
      var more := polls[1..];
      assert forall p :: p in more ==> p in polls;
      assert polls[0] in polls;
      if polls[0].pending {
        var next := if Wins(script) then 1 - block else block;
        ArrivesEnds(more, AfterWait(script), next, size0, size1, room);
      } else {
        ArrivesEnds(more, script, block, size0, size1, room);
      }
    } else if polls != [] {
      assert polls[0] in polls;
    }
  }

  /** The block that the target writes after `n` switches. */
  function Turned(block: nat, n: nat): (b: nat)
    requires block < 2
    ensures b < 2
    decreases n
  {
    if n == 0 then block else Turned(1 - block, n - 1)
  }

  /** The attempts that are left after `n` waits. */
  function AfterWaits(script: seq<Attempt>, n: nat): (rest: seq<Attempt>)
    ensures forall e :: e in rest ==> e in script
    decreases n
  {
    if n == 0 then script else AfterWaits(AfterWait(script), n - 1)
  }

  /** The wait `j` reaches a switch. */
  predicate WinsAt(script: seq<Attempt>, j: nat)
  {
    Wins(AfterWaits(script, j))
  }

  /** The data that come with it. */
  function SentAt(script: seq<Attempt>, block: nat, size0: nat, size1: nat, j: nat): seq<byte>
    requires FitAll(script, size0, size1) && block < 2 && WinsAt(script, j)
  {
    SentBy(Winner(AfterWaits(script, j)), Turned(block, j), size0, size1)
  }

  /** The first `n` waits reach a switch, and bring no data. */
  ghost predicate Silent(script: seq<Attempt>, block: nat, size0: nat, size1: nat, n: nat)
    requires FitAll(script, size0, size1) && block < 2
  {
    forall j :: 0 <= j < n ==> SilentAt(script, block, size0, size1, j)
  }

  predicate SilentAt(script: seq<Attempt>, block: nat, size0: nat, size1: nat, j: nat)
    requires FitAll(script, size0, size1) && block < 2
  {
    WinsAt(script, j) && SentAt(script, block, size0, size1, j) == []
  }

  lemma SilentTail(script: seq<Attempt>, block: nat, size0: nat, size1: nat, n: nat)
    requires FitAll(script, size0, size1) && block < 2 && n > 0 && Silent(script, block, size0, size1, n)
    ensures Wins(script) && SentBy(Winner(script), block, size0, size1) == []
    ensures Silent(AfterWait(script), 1 - block, size0, size1, n - 1)
  {
    assert SilentAt(script, block, size0, size1, 0);
    var rest, next := AfterWait(script), 1 - block;
    forall j | 0 <= j < n - 1
      ensures SilentAt(rest, next, size0, size1, j)
    {
      assert SilentAt(script, block, size0, size1, j + 1);
      AfterOne(script, block, j + 1);
    }
  }

  lemma AfterOne(script: seq<Attempt>, block: nat, n: nat)
    requires block < 2 && n > 0
    ensures AfterWaits(script, n) == AfterWaits(AfterWait(script), n - 1)
    ensures Turned(block, n) == Turned(1 - block, n - 1)
  {
  }

  /** Switches without data. */
  lemma {:induction false} SkipAll(polls: seq<Poll>, script: seq<Attempt>, block: nat,
                                   size0: nat, size1: nat, room: nat, k: nat)
    requires FitAll(script, size0, size1) && block < 2 && k <= |polls|
    requires (forall j :: 0 <= j < k ==> polls[j].pending) && Silent(script, block, size0, size1, k)
    ensures Arrives(polls, script, block, size0, size1, room)
            == Arrives(polls[k..], AfterWaits(script, k), Turned(block, k), size0, size1, room)
  {
    if k > 0 {
      SilentTail(script, block, size0, size1, k);
      SkipSilent(polls, script, block, size0, size1, room);
      SkipAll(polls[1..], AfterWait(script), 1 - block, size0, size1, room, k - 1);
      AfterOne(script, block, k);
      assert polls[1..][k - 1..] == polls[k..];
    } else {
      assert polls[k..] == polls;
    }
  }

  /** While the host signals and no data came with the waits before, the data announced with the
      block that the next wait brings, in turn the one and the other, end the call, as many as
      the ring can hold. */
  lemma ArrivesAt(polls: seq<Poll>, script: seq<Attempt>, block: nat,
                  size0: nat, size1: nat, room: nat, k: nat)
    requires FitAll(script, size0, size1) && block < 2 && k < |polls| && room > 1
    requires (forall j :: 0 <= j <= k ==> polls[j].pending) && Silent(script, block, size0, size1, k)
    requires WinsAt(script, k) && SentAt(script, block, size0, size1, k) != []
    ensures var sent := SentAt(script, block, size0, size1, k);
            Arrives(polls, script, block, size0, size1, room)
            == Arrival(Served, sent[..Least(|sent|, room - 1)])
  {
    SkipAll(polls, script, block, size0, size1, room, k);
    assert polls[k..][0] == polls[k];
    ArrivesNow(polls[k..], AfterWaits(script, k), Turned(block, k), size0, size1, room);
  }

  lemma ArrivesNow(polls: seq<Poll>, script: seq<Attempt>, block: nat, size0: nat, size1: nat, room: nat)
    requires FitAll(script, size0, size1) && block < 2 && polls != [] && polls[0].pending && Wins(script)
    requires room > 1 && SentBy(Winner(script), block, size0, size1) != []
    ensures var sent := SentBy(Winner(script), block, size0, size1);
            Arrives(polls, script, block, size0, size1, room)
            == Arrival(Served, sent[..Least(|sent|, room - 1)])
  {
  }

  /** A switch without data. */
  lemma SkipSilent(polls: seq<Poll>, script: seq<Attempt>, block: nat, size0: nat, size1: nat, room: nat)
    requires FitAll(script, size0, size1) && block < 2 && polls != [] && polls[0].pending && Wins(script)
    requires SentBy(Winner(script), block, size0, size1) == []
    ensures Arrives(polls, script, block, size0, size1, room)
            == Arrives(polls[1..], AfterWait(script), 1 - block, size0, size1, room)
  {
  }

  /** A ring of its full size holds in one piece what lies before the end of the storage. */
  lemma InOnePiece(c: Control)
    requires c.Ok() && c.curSize == c.size
    ensures c.Contiguous() == Least(c.Length(), c.size - c.rd)
  {
  }

  /** A run from the start in which a packet overruns its block. */
  method OverrunRun() returns (verdict: Verdict)
    ensures verdict == Outside
  {
    var block0, block1 := new byte[65600](_ => 0), new byte[65600](_ => 0);
    var pending, fromHost := new byte[1100](_ => 0), new byte[16](_ => 0);
    var m := new Membufs(block0, block1, pending, fromHost);
    verdict := TraceThree(m, Granted(false, [seq(65600, _ => 0), seq(65600, _ => 0)]));
  }

  method TraceThree(m: Membufs, second: Attempt) returns (verdict: Verdict)
    requires m.Valid() && m.Level() == FRESH
    requires second.Granted? && second.Fits(m.blk0.Length, m.blk1.Length)
    modifies m, m.pend, m.down, m.pend.data, m.down.data, m.blk0, m.blk1
    ensures verdict == Outside
  {
    PacketOverrunsBlock(second);
    verdict := TraceTwo(m);
    var rest;
    verdict, rest := m.Trace(0, seq(65536, _ => 0), [Refused(false), second]);
  }

  method TraceTwo(m: Membufs) returns (verdict: Verdict)
    requires m.Valid() && m.Level() == FRESH
    modifies m, m.pend, m.down, m.pend.data, m.down.data, m.blk0, m.blk1
    ensures m.Valid() && verdict == Accepted
    ensures m.Level() == GetPlan(GetPlan(FRESH, 65004, []).after, 1000, []).after
  {
    PacketOverrunsBlock(Granted(false, []));
    var rest;
    verdict, rest := m.Trace(0, seq(65000, _ => 0), []);
    verdict, rest := m.Trace(0, seq(996, _ => 0), []);
  }

  /** The three writes of a packet compose its frame. */
  lemma FrameByParts(space: seq<byte>, p: Packet)
    requires p.Ok() && |space| == HEADER + |p.data|
    ensures var s := Patch(Patch(space, 0, Le16(p.Size()) + Le16(0)), HEADER, p.data);
            Patch(s, 2, s[..2]) == p.Frame()
  {
    var s := Patch(Patch(space, 0, Le16(p.Size()) + Le16(0)), HEADER, p.data);
    assert s == Le16(p.Size()) + Le16(0) + p.data;
    assert s[..2] == Le16(p.Size());
  }

  lemma SameEnd<T>(a: seq<T>, b: seq<T>, c: seq<T>)
    requires a + b == a + c
    ensures b == c
  {
    assert (a + b)[|a|..] == b && (a + c)[|a|..] == c;
  }

  lemma SliceBehind<T>(a: seq<T>, b: seq<T>, at: nat, n: nat)
    requires at + n <= |b|
    ensures (a + b)[|a| + at..|a| + at + n] == b[at..at + n]
  {
  }

  lemma PatchBehind<T>(a: seq<T>, b: seq<T>, at: nat, bytes: seq<T>)
    requires at + |bytes| <= |b|
    ensures a + Patch(b, at, bytes) == Patch(a + b, |a| + at, bytes)
  {
  }

  lemma PatchEnd<T>(s: seq<T>, a: seq<T>, b: seq<T>, off: nat, bytes: seq<T>)
    requires s == a + b && off + |bytes| <= |b|
    ensures Patch(s, |s| - |b| + off, bytes) == a + Patch(b, off, bytes)
  {
    PatchBehind(a, b, off, bytes);
  }

  /** Overwriting part of the newest bytes of the last section. */
  lemma PatchNewest<T>(a: seq<T>, b: seq<T>, n: nat, off: nat, bytes: seq<T>)
    requires n <= |b| && off + |bytes| <= n
    ensures |a + b| == |a| + |b|
    ensures a + Patch(b, |b| - n + off, bytes) == Patch(a + b, |a| + |b| - n + off, bytes)
  {
    PatchBehind(a, b, |b| - n + off, bytes);
  }

  /** Overwriting part of a middle section overwrites part of the whole. */
  lemma PatchInside<T>(a: seq<T>, b: seq<T>, c: seq<T>, at: nat, bytes: seq<T>)
    requires at + |bytes| <= |b|
    ensures a + Patch(b, at, bytes) + c == Patch(a + b + c, |a| + at, bytes)
  {
  }
}
