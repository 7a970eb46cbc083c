/** The bit stream of tools/bsasm.py: fields of any width, least significant bit first, packed
    into bytes; and the shifts and the bitwise "or" that build such fields. */
module BsBits {
  import opened Bytes

  function Bit(b: bool): nat
  {
    if b then 1 else 0
  }

  /** The low `n` bits of `v`, least significant first. */
  function ToBits(v: nat, n: nat): (bits: seq<bool>)
    ensures |bits| == n
  {
    if n == 0 then [] else [v % 2 == 1] + ToBits(v / 2, n - 1)
  }

  function Value(bits: seq<bool>): nat
  {
    if bits == [] then 0 else Bit(bits[0]) + 2 * Value(bits[1..])
  }

  function Power(n: nat): nat
  {
    if n == 0 then 1 else 2 * Power(n - 1)
  }

  /** Reading back a field that is wide enough. */
  lemma {:induction false} ValueToBits(v: nat, n: nat)
    requires v < Power(n)
    ensures Value(ToBits(v, n)) == v
  {
    if n > 0 {
      ValueToBits(v / 2, n - 1);
      assert ToBits(v, n)[1..] == ToBits(v / 2, n - 1);
    }
  }

  // ---- Shifting and combining ----

  /** `v << k` */
  function Shl(v: nat, k: nat): nat
  {
    if k == 0 then v else 2 * Shl(v, k - 1)
  }

  /** `a | b` */
  function Or(a: nat, b: nat): nat
    decreases a + b
  {
    if a == 0 then b
    else if b == 0 then a
    else Bit(a % 2 == 1 || b % 2 == 1) + 2 * Or(a / 2, b / 2)
  }

  /** The `w` bits of `x` from bit `k` on are zero. */
  predicate Clear(x: nat, k: nat, w: nat)
  {
    if k > 0 then Clear(x / 2, k - 1, w)
    else w > 0 ==> x % 2 == 0 && Clear(x / 2, 0, w - 1)
  }

  /** A field that meets only zero bits is added. */
  lemma {:induction false} OrClear(x: nat, f: nat, k: nat, w: nat)
    requires Clear(x, k, w) && f < Power(w)
    ensures Or(x, Shl(f, k)) == x + Shl(f, k)
  {
    if x == 0 || Shl(f, k) == 0 {
    } else if k > 0 {
      OrClear(x / 2, f, k - 1, w);
    } else if w > 0 {
      OrClear(x / 2, f / 2, 0, w - 1);
    }
  }

  lemma {:induction false} ClearBetween(low: nat, high: nat, k: nat, w: nat)
    requires low < Power(k)
    ensures Clear(low + Shl(high, k + w), k, w)
  {
    if k > 0 {
      ClearBetween(low / 2, high, k - 1, w);
      assert (low + Shl(high, k + w)) / 2 == low / 2 + Shl(high, k - 1 + w);
    } else if w > 0 {
      ClearBetween(0, high, 0, w - 1);
    }
  }

  /** A field between a lower and a higher one. */
  lemma OrBetween(low: nat, high: nat, f: nat, k: nat, w: nat)
    requires low < Power(k) && f < Power(w)
    ensures Or(low + Shl(high, k + w), Shl(f, k)) == low + Shl(high, k + w) + Shl(f, k)
  {
    ClearBetween(low, high, k, w);
    OrClear(low + Shl(high, k + w), f, k, w);
  }

  // ---- Bytes ----

  lemma {:induction false} TopBit(low: nat, x: bool, n: nat)
    requires low < Power(n)
    ensures ToBits(low + Bit(x) * Power(n), n + 1) == ToBits(low, n) + [x]
  {
    if n > 0 {
      TopBit(low / 2, x, n - 1);
      assert (low + Bit(x) * Power(n)) / 2 == low / 2 + Bit(x) * Power(n - 1);
      assert (low + Bit(x) * Power(n)) % 2 == low % 2;
    } else {
      assert ToBits(low + Bit(x) * Power(n), 1) == [x] + ToBits(0, 0);
    }
  }

  /** Shifting a byte down and setting its top bit. */
  lemma ShiftIn(b: byte, x: bool)
    ensures ToBits(b / 2 + Bit(x) * 128, 8) == ToBits(b, 8)[1..] + [x]
  {
    assert Power(7) == 128;
    TopBit(b / 2, x, 7);
  }

  /** The bits of an unfinished byte are its top ones. */
  lemma PendingNext(b: byte, x: bool, n: nat)
    requires n < 8
    ensures ToBits(b / 2 + Bit(x) * 128, 8)[7 - n..] == ToBits(b, 8)[8 - n..] + [x]
  {
    ShiftIn(b, x);
  }

  function BitsOf(data: seq<byte>): (bits: seq<bool>)
    ensures |bits| == 8 * |data|
  {
    if data == [] then [] else BitsOf(data[..|data| - 1]) + ToBits(data[|data| - 1], 8)
  }

  lemma BitsOfNext(data: seq<byte>, b: byte)
    ensures BitsOf(data + [b]) == BitsOf(data) + ToBits(b, 8)
  {
    assert (data + [b])[..|data|] == data;
  }

  /** The bits in whole bytes and in the top `n` bits of an unfinished one. */
  function Stream(data: seq<byte>, b: byte, n: nat): seq<bool>
    requires n < 8
  {
    BitsOf(data) + ToBits(b, 8)[8 - n..]
  }

  lemma StreamNext(data: seq<byte>, b: byte, x: bool, n: nat)
    requires n < 8
    ensures var b' := b / 2 + Bit(x) * 128;
            Stream(data, b, n) + [x] == if n == 7 then Stream(data + [b'], 0, 0) else Stream(data, b', n + 1)
  {
    var b' := b / 2 + Bit(x) * 128;
    PendingNext(b, x, n);
    var pending := ToBits(b, 8)[8 - n..];
    AppendAssociates(BitsOf(data), pending, [x]);
    if n == 7 {
      BitsOfNext(data, b');
      assert ToBits(0, 8)[8..] == [];
      assert ToBits(b', 8)[0..] == ToBits(b', 8);
    }
  }

  /** The class bitstream. */
  class BitStream {
    var bitpos: nat
    var data: seq<byte>
    var curbyte: byte

    predicate Valid()
      reads this
    {
      bitpos < 8
    }

    /** The bits added so far. Those that do not fill a byte yet are at the top of `curbyte`. */
    ghost function Contents(): seq<bool>
      reads this
      requires Valid()
    {
      Stream(data, curbyte, bitpos)
    }

    constructor ()
      ensures Valid() && Contents() == []
    {
      bitpos, data, curbyte := 0, [], 0;
    }

    method AddBits(val: nat, bits: nat)
      requires Valid()
      modifies this
      ensures Valid() && Contents() == old(Contents()) + ToBits(val, bits)
    {
      ghost var before, all := Contents(), ToBits(val, bits);
      var v := val;
      for i := 0 to bits
        invariant Valid() && Contents() == before + all[..i]
        invariant all[i..] == ToBits(v, bits - i)
      {
        assert all[i] == all[i..][0] && all[..i + 1] == all[..i] + [all[i]];
        assert all[i + 1..] == all[i..][1..];
        AddBit(v % 2 == 1);
        v := v / 2;
      }
    }

    /** The body of the loop of add_bits. */
    method AddBit(x: bool)
      requires Valid()
      modifies this
      ensures Valid() && Contents() == old(Contents()) + [x]
    {
      StreamNext(data, curbyte, x, bitpos);
      curbyte := curbyte / 2;
      if x {
        curbyte := curbyte + 0x80;
      }
      bitpos := bitpos + 1;
      if bitpos == 8 {
        bitpos := 0;
        data := data + [curbyte];
        curbyte := 0;
      }
    }

    /** A whole number of bytes is handed out bit for bit; an incomplete last byte is not. */
    method ToByteArray() returns (bytes: seq<byte>)
      requires Valid()
      ensures |bytes| == |Contents()| / 8
      ensures BitsOf(bytes) == Contents()[..8 * (|Contents()| / 8)]
    {
      bytes := data;
    }

    method Size() returns (n: nat)
      requires Valid()
      ensures n == |Contents()|
    {
      n := |data| * 8 + bitpos;
    }
  }
}
