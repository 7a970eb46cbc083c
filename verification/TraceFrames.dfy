/** The packets that user code traces and their framing: a header holding the size of the
    allocated block and the number of bytes written to it, followed by the user data. The
    top bit of a size carries the number of the core. This is the layout without SystemView
    (two 16-bit fields). */
module TraceFrames {
  import opened Bytes

  const HEADER: nat := 4
  const CORE_BIT: nat := 0x8000

  datatype Packet = Packet(core: nat, data: seq<byte>) {
    predicate Ok() {
      core < 2
    }

    /** The size leaves room for the core bit. */
    predicate Short() {
      |data| < CORE_BIT
    }

    function Size(): (v: u16)
      requires Ok()
    {
      SizeWord(core, |data| % TWO_16)
    }

    /** A packet whose data have been written completely. */
    function Frame(): (b: seq<byte>)
      requires Ok()
      ensures |b| == HEADER + |data|
    {
      Le16(Size()) + Le16(Size()) + data
    }
  }

  /** `ESP_APPTRACE_USR_BLOCK_CORE(core) | size`, where `size` has 16 bits. */
  function SizeWord(core: nat, size: nat): (v: u16)
    requires core < 2 && size < TWO_16
  {
    if size < CORE_BIT then core * CORE_BIT + size else size
  }

  function FrameAll(ps: seq<Packet>): (b: seq<byte>)
    requires forall p :: p in ps ==> p.Ok()
  {
    if ps == [] then [] else FrameAll(ps[..|ps| - 1]) + ps[|ps| - 1].Frame()
  }

  lemma FrameAllAppend(ps: seq<Packet>, p: Packet)
    requires p.Ok() && forall q :: q in ps ==> q.Ok()
    ensures FrameAll(ps + [p]) == FrameAll(ps) + p.Frame()
  {
    assert (ps + [p])[..|ps|] == ps;
  }

  /** A host that splits the stream again: it needs a header whose two sizes agree and
      that many bytes behind it. */
  function Deframe(b: seq<byte>): (ps: seq<Packet>)
  {
    if |b| < HEADER then []
    else
      var size := FromLe16(b[..2]);
      var len := size % CORE_BIT;
      if FromLe16(b[2..4]) != size || HEADER + len > |b| then []
      else [Packet(size / CORE_BIT, b[HEADER..HEADER + len])] + Deframe(b[HEADER + len..])
  }

  /** A frame reads back if and only if the size leaves room for the core bit. */
  lemma DeframeFrameIff(p: Packet, rest: seq<byte>)
    requires p.Ok()
    ensures Deframe(p.Frame() + rest) == [p] + Deframe(rest) <==> p.Short()
  {
    var b := p.Frame() + rest;
    var size := p.Size();
    assert b[..2] == Le16(size) && b[2..4] == Le16(size);
    FromLe16Le16(size);
    if p.Short() {
      assert size % CORE_BIT == |p.data| && size / CORE_BIT == p.core;
      assert b[HEADER..HEADER + |p.data|] == p.data;
      assert b[HEADER + |p.data|..] == rest;
    } else {
      assert |Deframe(b)[0].data| < CORE_BIT;
    }
  }

  lemma {:induction false} DeframePrefix(ps: seq<Packet>, rest: seq<byte>)
    requires forall p :: p in ps ==> p.Ok() && p.Short()
    ensures Deframe(FrameAll(ps) + rest) == ps + Deframe(rest)
  {
    if ps == [] {
      assert FrameAll(ps) + rest == rest;
    } else {
      var front, last := ps[..|ps| - 1], ps[|ps| - 1];
      assert ps == front + [last];
      var tail := last.Frame() + rest;
      AppendAssociates(FrameAll(front), last.Frame(), rest);
      DeframePrefix(front, tail);
      DeframeFrameIff(last, rest);
      AppendAssociates(front, [last], Deframe(rest));
    }
  }

  lemma {:induction false} DeframeShort(b: seq<byte>)
    ensures forall p :: p in Deframe(b) ==> p.Short()
    decreases |b|
  {
    if |b| >= HEADER {
      var len := FromLe16(b[..2]) % CORE_BIT;
      if HEADER + len <= |b| {
        DeframeShort(b[HEADER + len..]);
      }
    }
  }

  /** The framed stream determines the packets and their order if and only if all their
      sizes leave room for the core bit. */
  lemma DeframeFrameAllIff(ps: seq<Packet>)
    requires forall p :: p in ps ==> p.Ok()
    ensures Deframe(FrameAll(ps)) == ps <==> forall p :: p in ps ==> p.Short()
  {
    DeframeShort(FrameAll(ps));
    if forall p :: p in ps ==> p.Short() {
      DeframePrefix(ps, []);
      assert FrameAll(ps) + [] == FrameAll(ps);
      assert ps + Deframe([]) == ps;
    }
  }
}
