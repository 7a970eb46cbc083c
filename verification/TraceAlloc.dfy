/** Where components/app_trace/app_trace_membufs_proto.c finds room for a packet: the
    decisions of up_buffer_get and wait4buf, as functions of the fill levels of the blocks and
    of the pending ring. */
module TraceAlloc {
  import opened Bytes
  import opened TraceRing

  const HOST_HEADER: nat := 2

  /** What one call of `swap_start` meets: the host has not released its block yet, in
      which case the caller may also run out of time, or it has released it, leaving the
      block as the image for that block and possibly announcing data in it. */
  datatype Attempt =
    | Refused(expired: bool)
    | Granted(pending: bool, images: seq<seq<byte>>)
  {
    /** The host leaves a whole block and announces no more data than the block holds. */
    predicate FitsBlock(i: nat, size: nat) {
      Granted? ==> |images| == 2 && i < 2 && |images[i]| == size >= HOST_HEADER
                   && (pending ==> HOST_HEADER + FromLe16(images[i][..HOST_HEADER]) <= size)
    }

    predicate Fits(size0: nat, size1: nat) {
      FitsBlock(0, size0) && FitsBlock(1, size1)
    }

    /** The data that the host sends with the released block `i`. */
    function Announced(i: nat, size: nat): (b: seq<byte>)
      requires FitsBlock(i, size)
    {
      if Granted? && pending
      then images[i][HOST_HEADER..HOST_HEADER + FromLe16(images[i][..HOST_HEADER])]
      else []
    }
  }

  /** Whether repeated attempts reach a switch before the caller's time is over; running out
      of attempts counts as running out of time. */
  predicate Wins(script: seq<Attempt>)
  {
    script != [] && (script[0].Granted? || (!script[0].expired && Wins(script[1..])))
  }

  /** Attempts reach a switch exactly if one of them is granted, and those before it are
      refused in time. */
  lemma {:induction false} WinsIff(script: seq<Attempt>)
    ensures Wins(script) <==>
            exists k :: 0 <= k < |script| && script[k].Granted?
                        && forall j :: 0 <= j < k ==> script[j] == Refused(false)
  {
    if script != [] && script[0] == Refused(false) {
      var later := script[1..];
      WinsIff(later);
      if k :| 0 <= k < |later| && later[k].Granted? && forall j :: 0 <= j < k ==> later[j] == Refused(false) {
        assert script[k + 1] == later[k];
        assert forall j :: 0 < j < k + 1 ==> script[j] == later[j - 1];
      }
      if k :| 0 <= k < |script| && script[k].Granted? && forall j :: 0 <= j < k ==> script[j] == Refused(false) {
        assert later[k - 1] == script[k];
        assert forall j :: 0 <= j < k - 1 ==> later[j] == script[j + 1];
      }
    } else if script != [] && script[0].Granted? {
      assert script[0].Granted?;
    }
  }

  /** The attempt that is granted. */
  function Winner(script: seq<Attempt>): (e: Attempt)
    requires Wins(script)
    ensures e.Granted? && e in script
  {
    if script[0].Granted? then script[0] else Winner(script[1..])
  }

  /** The attempts that are left when a switch was reached or the time was over. */
  function AfterWait(script: seq<Attempt>): (rest: seq<Attempt>)
    ensures |rest| <= |script| && forall e :: e in rest ==> e in script
  {
    if script == [] then []
    else if script[0] == Refused(false) then AfterWait(script[1..])
    else script[1..]
  }

  /** The fill level and the size of the current block, the size of the other block, and the
      pending ring. */
  datatype Level = Level(marker: nat, len: nat, other: nat, ring: Control) {

    ghost predicate Ok() {
      marker <= len && ring.Ok()
    }

    /** A switch: pending bytes move to the other block, as many as it holds. */
    ghost function Switched(): (l: Level)
      requires ring.Ok()
      ensures l.Ok() && (l.ring.Length() > 0 ==> l.marker == l.len)
      ensures l.marker + l.ring.Length() == ring.Length()
    {
      Level(if ring.Length() <= other then ring.Length() else other, other, len, ring.Pumped(other))
    }

    ghost function Pended(n: nat): (l: Level)
      requires ring.Ok() && ring.CanProduce(n)
      ensures l.ring.Ok() && l.ring.Length() == ring.Length() + n
    {
      this.(ring := ring.Produced(n))
    }

    ghost function Filled(n: nat): Level {
      this.(marker := marker + n)
    }
  }

  /** What a packet gets: nothing, the bytes from `at` on in the current block, or `room` bytes
      of the pending ring; and the levels afterwards. */
  datatype Plan =
    | Deny(after: Level)
    | Block(at: nat, after: Level)
    | Ring(room: nat, after: Level)
  {
    /** What is written for a packet of `raw` bytes stays inside of what it got. */
    predicate Inside(raw: nat) {
      match this
      case Deny(_) => true
      case Block(at, after) => at + raw <= after.len
      case Ring(room, _) => raw <= room
    }
  }

  /** How many switches attempts can reach: those that are granted before the time is over. */
  function Grants(script: seq<Attempt>): nat
  {
    if script == [] || script[0] == Refused(true) then 0
    else (if script[0].Granted? then 1 else 0) + Grants(script[1..])
  }

  lemma {:induction false} GrantsByWaits(script: seq<Attempt>)
    ensures Grants(script) == if Wins(script) then 1 + Grants(AfterWait(script)) else 0
  {
    if script != [] {
      GrantsByWaits(script[1..]);
    }
  }

  /** How many switches it takes until at most `min` bytes are in the current block. */
  ghost function Needed(l: Level, min: nat): nat
    requires l.ring.Ok()
    decreases l.marker + l.ring.Length()
  {
    if l.marker <= min then 0 else 1 + Needed(l.Switched(), min)
  }

  /** wait4buf, and the update of the marker that follows it. It gets the size in 16 bits,
      while the marker is advanced by all of it. */
  ghost function WaitPlan(l: Level, raw: nat, wins: bool): (p: Plan)
    requires l.ring.Ok()
    ensures p.after.ring.Ok()
  {
    if !wins then Deny(l)
    else
      var s := l.Switched();
      var n := raw % TWO_16;
      if s.ring.Length() > 0 || s.marker + n > s.len then
        if s.ring.CanProduce(n) then Ring(n, s.Pended(n)) else Deny(s)
      else Block(s.marker, s.Filled(raw))
  }

  /** The levels after the attempt to switch that up_buffer_get makes if bytes are pending. */
  ghost function Tried(l: Level, script: seq<Attempt>): (t: Level)
    requires l.ring.Ok()
    ensures t.ring.Ok() && (l.Ok() ==> t.Ok())
  {
    if l.ring.Length() > 0 && script != [] && script[0].Granted? then l.Switched() else l
  }

  ghost function AfterTry(l: Level, script: seq<Attempt>): seq<Attempt>
    requires l.ring.Ok()
  {
    if l.ring.Length() > 0 && script != [] then script[1..] else script
  }

  /** Neither the current block nor the pending ring has room, once this attempt was made. */
  ghost predicate Waits(l: Level, raw: nat, script: seq<Attempt>)
    requires l.ring.Ok()
  {
    var t := Tried(l, script);
    && raw <= l.len && (t.ring.Length() > 0 || t.marker + raw > t.len) && !t.ring.CanProduce(raw)
  }

  /** up_buffer_get for a packet of `raw` bytes with its header. */
  ghost function GetPlan(l: Level, raw: nat, script: seq<Attempt>): (p: Plan)
    requires l.ring.Ok()
    ensures p.after.ring.Ok()
  {
    if raw > l.len then Deny(l)
    else
      var t := Tried(l, script);
      if t.ring.Length() > 0 || t.marker + raw > t.len then
        if t.ring.CanProduce(raw) then Ring(raw, t.Pended(raw))
        else WaitPlan(t, raw, Wins(AfterTry(l, script)))
      else Block(t.marker, t.Filled(raw))
  }

  // ---- What the decisions guarantee ----

  /** The attempt takes place exactly if bytes are pending. If it is granted, the blocks change
      places, and the new current block holds as many of the pending bytes as it has room for;
      otherwise the levels stay. */
  lemma TriedLevels(l: Level, script: seq<Attempt>)
    requires l.Ok()
    ensures var t, pending := Tried(l, script), l.ring.Length();
            if pending > 0 && script != [] && script[0].Granted? then
              && t.len == l.other && t.other == l.len && t.marker + t.ring.Length() == pending
              && (t.marker == t.len || t.ring.Length() == 0) && t.ring.size == l.ring.size
            else t == l
    ensures |AfterTry(l, script)| == |script| - if l.ring.Length() > 0 && script != [] then 1 else 0
  {
  }

  /** While nothing is pending, no attempt is made unless there is no other way: a packet that
      fits goes behind the marker of the current block, and otherwise one for which the pending
      ring has room goes there, whatever the host does. */
  lemma NoSwitchNeeded(l: Level, raw: nat, script: seq<Attempt>)
    requires l.Ok() && l.ring.Length() == 0 && raw <= l.len
    requires l.marker + raw <= l.len || l.ring.CanProduce(raw)
    ensures var p := GetPlan(l, raw, script);
            && p.after.len == l.len && p.after.other == l.other
            && (l.marker + raw <= l.len ==>
                  p == Block(l.marker, Level(l.marker + raw, l.len, l.other, l.ring)))
            && (l.marker + raw > l.len ==>
                  p.Ring? && p.room == raw && p.after.marker == l.marker && p.after.ring.Length() == raw)
  {
  }

  /** A packet stays inside of what it got, unless wait4buf is called with a size of more than
      16 bits and does not find a block that holds all pending bytes and the packet. */
  lemma InsideIff(l: Level, raw: nat, script: seq<Attempt>)
    requires l.Ok()
    ensures var p, t := GetPlan(l, raw, script), Tried(l, script);
            p.Inside(raw) <==>
            || raw < TWO_16 || p.Deny? || !Waits(l, raw, script)
            || (p.Block? && t.ring.Length() + raw <= t.other)
  {
  }

  /** In a build without a pending buffer and with blocks of one size, every packet does. */
  lemma InsideWithoutRing(l: Level, raw: nat, script: seq<Attempt>)
    requires l.Ok() && l.ring.size == 0 && l.len == l.other
    ensures GetPlan(l, raw, script).Inside(raw)
  {
    InsideIff(l, raw, script);
  }

  lemma PumpNothing(c: Control, room: nat)
    requires c.Ok() && c.Length() == 0
    ensures c.Pumped(room) == c
  {
  }

  /** Which packets wait4buf finds room for. */
  lemma RoomAfterWait(l: Level, raw: nat, wins: bool)
    requires l.ring.Ok() && raw < TWO_16
    ensures !WaitPlan(l, raw, wins).Deny? <==>
            wins && (l.ring.Length() + raw <= l.other || l.ring.Pumped(l.other).CanProduce(raw))
  {
  }

  /** Which packets get room while nothing is pending, for sizes of 16 bits: those that fit the
      current block, now or in the pending ring, or after a switch in the other block. */
  lemma RoomWhenNothingPends(l: Level, raw: nat, script: seq<Attempt>)
    requires l.Ok() && l.ring.Length() == 0 && raw < TWO_16
    ensures !GetPlan(l, raw, script).Deny? <==>
            && raw <= l.len
            && (l.marker + raw <= l.len || l.ring.CanProduce(raw) || (Wins(script) && raw <= l.other))
  {
    RoomAfterWait(l, raw, Wins(script));
    PumpNothing(l.ring, l.other);
  }

  /** Which packets get room while bytes are pending: those that fit the new current block if
      it took all pending bytes, those that fit the pending ring after the pump, and after
      another switch those that fit the next block behind all pending bytes or, if this is
      full, the pending ring. */
  lemma RoomWhenBytesPend(l: Level, raw: nat, script: seq<Attempt>)
    requires l.Ok() && l.ring.Length() > 0 && raw < TWO_16
    ensures var t := Tried(l, script);
            !GetPlan(l, raw, script).Deny? <==>
            && raw <= l.len
            && (|| (t.ring.Length() == 0 && t.marker + raw <= t.len)
                || t.ring.CanProduce(raw)
                || (Wins(AfterTry(l, script))
                    && (t.ring.Length() + raw <= t.other || t.ring.Pumped(t.other).CanProduce(raw))))
  {
    RoomAfterWait(Tried(l, script), raw, Wins(AfterTry(l, script)));
  }

  /** Blocks of 65600 bytes and a pending ring of 1100, before anything was traced. */
  const FRESH: Level := Level(0, 65600, 65600, Control(1100, 1100, 0, 0))

  /** Three packets, the first two of which leave 1000 bytes pending. For the third, of 65540
      bytes with its header, the first attempt to switch is refused, the ring is too full and
      the second attempt is granted; wait4buf takes the size for 4 and hands out room in a
      block that the packet overruns by 940 bytes. */
  lemma PacketOverrunsBlock(second: Attempt)
    requires second.Granted?
    ensures FRESH.Ok()
    ensures var first := GetPlan(FRESH, 65004, []);
            var next := GetPlan(first.after, 1000, []);
            var p := GetPlan(next.after, 65540, [Refused(false), second]);
            && first == Block(0, FRESH.(marker := 65004))
            && next == Ring(1000, Level(65004, 65600, 65600, Control(1100, 1100, 0, 1000)))
            && p == Block(1000, Level(66540, 65600, 65600, Control(1100, 1100, 1000, 1000)))
            && !p.Inside(65540)
  {
    var script := [Refused(false), second];
    assert script[1..] == [second];
  }
}
