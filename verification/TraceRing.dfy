/** The ring buffer of components/app_trace/app_trace_util.c.

    The ring only hands out contiguous regions. When a request does not fit behind
    the write pointer, the ring wraps early and shrinks `curSize`, so that the bytes
    left behind the old write pointer are skipped by the reader; the full size comes
    back when the read pointer wraps. The abstraction is a FIFO queue of bytes. */
module TraceRing {
  import opened Bytes

  /** A snapshot of the ring's control fields. */
  datatype Control = Control(size: nat, curSize: nat, rd: nat, wr: nat) {

    ghost predicate Ok() {
      && size < TWO_32
      && (if rd <= wr
          then curSize == size && (wr < size || wr == size == 0)
          else rd < curSize <= size)
    }

    function Length(): (n: nat)
      requires Ok()
    {
      if rd <= wr then wr - rd else curSize - rd + wr
    }

    /** Where the k-th oldest queued byte is stored. */
    function Index(k: nat): (i: nat)
      requires Ok() && k < Length()
      ensures i < size
    {
      if rd <= wr || rd + k < curSize then rd + k else rd + k - curSize
    }

    /** Whether a request for `n` contiguous bytes can be served. */
    ghost predicate CanProduce(n: nat)
      requires Ok()
    {
      if rd <= wr
      then wr + n < size || (rd > 0 && (wr + n == size || n < rd))
      else n < rd - wr
    }

    /** The most bytes that one request can take out. */
    ghost function Contiguous(): (n: nat)
      requires Ok()
      ensures n <= Length() && (n == 0 <==> Length() == 0)
    {
      if rd <= wr then wr - rd else curSize - rd
    }

    /** The control fields after a request for `n` bytes was served. */
    ghost function Produced(n: nat): (c: Control)
      requires Ok() && CanProduce(n)
      ensures c.Ok() && c.size == size && c.Length() == Length() + n
    {
      if rd > wr || wr + n < size then this.(wr := wr + n)
      else if wr + n == size then this.(wr := 0)
      else if rd == wr then Control(size, size, 0, n)
      else Control(size, wr, rd, n)
    }

    /** The control fields after `n` bytes were taken out. */
    ghost function Consumed(n: nat): (c: Control)
      requires Ok() && n <= Contiguous()
      ensures c.Ok() && c.size == size && c.Length() == Length() - n
    {
      if rd <= wr || rd + n < curSize then this.(rd := rd + n) else Control(size, size, 0, wr)
    }

    /** The control fields after up to `room` bytes were taken out, in two requests if they
        wrap around. */
    ghost function Pumped(room: nat): (c: Control)
      requires Ok()
      ensures c.Ok() && c.size == size
      ensures c.Length() == if Length() <= room then 0 else Length() - room
    {
      var n := if Length() <= room then Length() else room;
      if rd <= wr || rd + n < curSize then this.(rd := rd + n) else Control(size, size, n - (curSize - rd), wr)
    }
  }

  /** The largest request that is served: all up to the free byte in front of the oldest byte, or
      what is free behind the newest one or at the start, whichever is more. An empty ring may
      refuse a request that is smaller than the storage. */
  lemma LargestRequest(c: Control, n: nat)
    requires c.Ok() && c.size > 0
    ensures c.CanProduce(n) <==>
              if c.rd > c.wr then n <= c.rd - c.wr - 1
              else n <= c.size - c.wr - (if c.rd == 0 then 1 else 0) || n <= c.rd - 1
  {
  }

  /** The queue a control state denotes over a storage, oldest byte first. */
  ghost function Queue(c: Control, mem: seq<byte>): (q: seq<byte>)
    requires c.Ok() && |mem| == c.size
    ensures |q| == c.Length()
  {
    seq(c.Length(), k requires 0 <= k < c.Length() => mem[c.Index(k)])
  }

  /** `d` is `c` with the region `[at, at + n)` added as the newest bytes; the region
      holds none of the bytes queued before. */
  ghost predicate Appends(c: Control, d: Control, at: nat, n: nat)
    requires c.Ok()
  {
    && d.Ok() && d.size == c.size
    && at + n <= c.size
    && d.Length() == c.Length() + n
    && (forall k :: 0 <= k < c.Length() ==> d.Index(k) == c.Index(k))
    && (forall k :: c.Length() <= k < d.Length() ==> d.Index(k) == at + (k - c.Length()))
    && (forall k :: 0 <= k < c.Length() ==> c.Index(k) < at || at + n <= c.Index(k))
  }

  /** `d` is `c` without its `n` oldest bytes, which are stored at `[at, at + n)`. */
  ghost predicate Removes(c: Control, d: Control, at: nat, n: nat)
    requires c.Ok()
  {
    && d.Ok() && d.size == c.size
    && at + n <= c.size
    && n <= c.Length() && d.Length() == c.Length() - n
    && (forall k :: 0 <= k < n ==> c.Index(k) == at + k)
    && (forall k {:trigger d.Index(k)} :: 0 <= k < d.Length() ==> d.Index(k) == c.Index(k + n))
  }

  /** The region behind the write pointer, up to the end of the storage. */
  lemma AppendAhead(c: Control, n: nat)
    requires c.Ok() && c.rd <= c.wr && c.wr + n <= c.size
    requires c.wr + n == c.size ==> c.rd > 0
    ensures Appends(c, c.(wr := if c.wr + n == c.size then 0 else c.wr + n), c.wr, n)
  {
  }

  /** The region at the start of the storage, when the ring wraps early. */
  lemma AppendEarly(c: Control, n: nat)
    requires c.Ok() && n < c.rd <= c.wr < c.size
    ensures Appends(c, if c.rd == c.wr then Control(c.size, c.size, 0, n)
                       else Control(c.size, c.wr, c.rd, n), 0, n)
  {
  }

  /** The region between a wrapped write pointer and the read pointer. */
  lemma AppendBehind(c: Control, n: nat)
    requires c.Ok() && c.wr + n < c.rd
    ensures Appends(c, c.(wr := c.wr + n), c.wr, n)
  {
  }

  lemma AppendQueue(c: Control, d: Control, at: nat, n: nat, mem: seq<byte>)
    requires c.Ok() && Appends(c, d, at, n) && |mem| == c.size
    ensures Queue(d, mem) == Queue(c, mem) + mem[at..at + n]
  {
  }

  /** Filling a granted region changes exactly the newest bytes. */
  lemma FillQueue(c: Control, d: Control, at: nat, n: nat, mem: seq<byte>, bytes: seq<byte>)
    requires c.Ok() && Appends(c, d, at, n) && |mem| == c.size && |bytes| == n
    ensures |Patch(mem, at, bytes)| == c.size
    ensures Queue(d, Patch(mem, at, bytes)) == Queue(c, mem) + bytes
  {
    var filled := Patch(mem, at, bytes);
    assert filled[at..at + n] == bytes;
    assert Queue(c, filled) == Queue(c, mem);
    AppendQueue(c, d, at, n, filled);
  }

  /** The `n` newest bytes of `d` are stored at `[at, at + n)` and nothing else is. */
  ghost predicate Newest(d: Control, at: nat, n: nat)
  {
    && d.Ok() && at + n <= d.size && n <= d.Length()
    && (forall k :: d.Length() - n <= k < d.Length() ==> d.Index(k) == at + (k - (d.Length() - n)))
    && (forall k :: 0 <= k < d.Length() - n ==> d.Index(k) < at || at + n <= d.Index(k))
  }

  /** Overwriting part of the newest region changes exactly those queued bytes. */
  lemma PatchQueue(d: Control, at: nat, n: nat, mem: seq<byte>, off: nat, bytes: seq<byte>)
    requires Newest(d, at, n) && |mem| == d.size && off + |bytes| <= n
    ensures |Patch(mem, at + off, bytes)| == d.size
    ensures Queue(d, Patch(mem, at + off, bytes))
         == Patch(Queue(d, mem), d.Length() - n + off, bytes)
  {
  }

  /** Where part of the newest region is in the queue. */
  lemma NewestSlice(d: Control, at: nat, n: nat, mem: seq<byte>, off: nat, len: nat)
    requires Newest(d, at, n) && |mem| == d.size && off + len <= n
    ensures var from := d.Length() - n + off;
            Queue(d, mem)[from..from + len] == mem[at + off..at + off + len]
  {
  }

  lemma RemoveQueue(c: Control, d: Control, at: nat, n: nat, mem: seq<byte>)
    requires c.Ok() && Removes(c, d, at, n) && |mem| == c.size
    ensures mem[at..at + n] == Queue(c, mem)[..n]
    ensures Queue(d, mem) == Queue(c, mem)[n..]
  {
  }

  class Ring {
    const data: array<byte>
    var curSize: nat
    var rd: nat
    var wr: nat

    ghost function State(): (c: Control)
      reads this
    {
      Control(data.Length, curSize, rd, wr)
    }

    ghost predicate Valid()
      reads this
    {
      State().Ok()
    }

    /** The queued bytes, oldest first. */
    ghost function Contents(): (s: seq<byte>)
      reads this, data
      requires Valid()
    {
      Queue(State(), data[..])
    }

    /** esp_apptrace_rb_init */
    constructor (storage: array<byte>)
      requires storage.Length < TWO_32
      ensures Valid() && data == storage
      ensures Contents() == [] && State() == Control(storage.Length, storage.Length, 0, 0)
    {
      data := storage;
      curSize := storage.Length;
      rd, wr := 0, 0;
    }

    /** esp_apptrace_rb_produce. The sum `wr + size` is a 32-bit sum. As long as it does
        not wrap, the call succeeds exactly when a contiguous region exists, and that
        region becomes the newest part of the queue. When it wraps, the call hands out
        a region that runs past the end of the storage. */
    method Produce(n: u32) returns (ok: bool, at: nat)
      requires Valid()
      modifies this
      ensures !ok ==> State() == old(State())
      ensures old(rd <= wr ==> wr + n < TWO_32) ==>
                && Valid()
                && ok == old(State()).CanProduce(n)
                && (ok ==> Appends(old(State()), State(), at, n) && State() == old(State()).Produced(n))
                && (old(rd > wr || wr + n <= data.Length) ==> curSize == old(curSize))
      ensures old(rd <= wr && wr + n >= TWO_32) ==> ok && at + n > data.Length
    {
      ghost var c := State();
      at := wr;
      if rd <= wr {
        if Add32(wr, n) >= data.Length {
          if rd == 0 {
            return false, 0;
          }
          if Add32(wr, n) == data.Length {
            wr := 0;
            AppendAhead(c, n);
            assert State() == c.(wr := 0);
          } else {
            if n > rd - 1 {
              return false, 0;
            }
            curSize := wr;
            wr := 0;
            at := 0;
            if rd == curSize {
              rd := 0;
              if curSize < data.Length {
                curSize := data.Length;
              }
            }
            wr := wr + n;
            AppendEarly(c, n);
          }
        } else {
          wr := Add32(wr, n);
          if c.wr + n < TWO_32 {
            AppendAhead(c, n);
            assert State() == c.(wr := c.wr + n);
          }
        }
      } else {
        if n > rd - wr - 1 {
          return false, 0;
        }
        wr := wr + n;
        AppendBehind(c, n);
        assert State() == c.(wr := c.wr + n);
      }
      ok := true;
    }

    /** esp_apptrace_rb_consume. As long as the 32-bit sum `rd + size` does not wrap, the
        call succeeds exactly when the oldest `n` bytes are stored contiguously, and it
        removes them. When it wraps, the call succeeds past the end of the storage. */
    method Consume(n: u32) returns (ok: bool, at: nat)
      requires Valid()
      modifies this
      ensures !ok ==> State() == old(State())
      ensures old(rd + n < TWO_32) ==>
                && Valid()
                && ok == (n <= old(State()).Contiguous())
                && (ok ==> Removes(old(State()), State(), at, n) && State() == old(State()).Consumed(n))
                && (old(curSize == data.Length) ==> curSize == data.Length)
      ensures old(rd + n >= TWO_32) ==> ok && at + n > data.Length
    {
      at := rd;
      if rd <= wr {
        if Add32(rd, n) > wr {
          return false, 0;
        }
        rd := Add32(rd, n);
      } else {
        if Add32(rd, n) > curSize {
          return false, 0;
        } else if Add32(rd, n) == curSize {
          if curSize < data.Length {
            curSize := data.Length;
          }
          rd := 0;
        } else {
          rd := Add32(rd, n);
        }
      }
      ok := true;
    }

    /** esp_apptrace_rb_read_size_get: the largest request that Consume serves; it is 0
        only for an empty ring. */
    method ReadSize() returns (n: nat)
      requires Valid()
      ensures n == State().Contiguous()
      ensures n == 0 <==> Contents() == []
    {
      if rd <= wr {
        n := wr - rd;
      } else {
        n := curSize - rd;
      }
    }

    /** esp_apptrace_rb_write_size_get: every smaller request is served, and 0 means that
        the ring holds as many bytes as it can hold. */
    method WriteSize() returns (n: nat)
      requires Valid()
      ensures n <= data.Length && (rd <= wr ==> wr + n <= data.Length)
      ensures data.Length > 0 ==> forall m :: 0 <= m <= n ==> State().CanProduce(m)
      ensures n == 0 ==> curSize == 0 || |Contents()| == curSize - 1
    {
      if rd <= wr {
        n := data.Length - wr;
        if n != 0 && rd == 0 {
          n := n - 1;
        }
      } else {
        n := rd - wr - 1;
      }
    }
  }
}
