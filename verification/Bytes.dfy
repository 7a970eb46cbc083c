/** Bytes and the fixed-width little-endian fields shared by the other modules. */
module Bytes {

  type byte = x: int | 0 <= x < 256

  const TWO_16: nat := 0x1_0000
  const TWO_32: nat := 0x1_0000_0000

  type u16 = x: int | 0 <= x < TWO_16
  type u32 = x: int | 0 <= x < TWO_32

  /** C's `uint32_t` addition. */
  function Add32(a: u32, b: u32): (r: u32)
  {
    if a + b < TWO_32 then a + b else a + b - TWO_32
  }

  /** `mem` with the bytes from `at` on overwritten by `bytes`. */
  function Patch<T>(mem: seq<T>, at: nat, bytes: seq<T>): (r: seq<T>)
    requires at + |bytes| <= |mem|
    ensures |r| == |mem|
  {
    mem[..at] + bytes + mem[at + |bytes|..]
  }

  function Zeros(n: nat): (z: seq<byte>)
    ensures |z| == n && forall k :: 0 <= k < n ==> z[k] == 0
  {
    seq(n, _ => 0)
  }

  lemma AppendAssociates<T>(a: seq<T>, b: seq<T>, c: seq<T>)
    ensures (a + b) + c == a + (b + c)
  {
  }

  function Le16(v: u16): (b: seq<byte>)
    ensures |b| == 2
  {
    [v % 256, v / 256]
  }

  function FromLe16(b: seq<byte>): (v: u16)
    requires |b| == 2
  {
    (b[0] as int) + 256 * (b[1] as int)
  }

  lemma FromLe16Le16(v: u16)
    ensures FromLe16(Le16(v)) == v
  {
  }

  function Le32(v: u32): (b: seq<byte>)
    ensures |b| == 4
  {
    Le16(v % TWO_16) + Le16(v / TWO_16)
  }

  function FromLe32(b: seq<byte>): (v: u32)
    requires |b| == 4
  {
    (FromLe16(b[..2]) as int) + TWO_16 * (FromLe16(b[2..]) as int)
  }

  lemma FromLe32Le32(v: u32)
    ensures FromLe32(Le32(v)) == v
  {
    FromLe16Le16(v % TWO_16);
    FromLe16Le16(v / TWO_16);
  }
}
