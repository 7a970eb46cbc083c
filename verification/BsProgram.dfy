/** The binary file of a BitScrambler program: insts_to_binary of tools/bsasm.py. */
module BsProgram {
  import opened Bytes
  import opened BsBits
  import opened BsInputs
  import opened BsEncoder
  import opened Wrappers

  /** The settings of the meta-instructions. */
  datatype Meta = Meta(prefetch: bool, trailing: nat, eofOn: bool, width: nat)

  // ---- The lookup table ----

  function Low8(v: int): byte
  {
    v % 0x100
  }

  function Low16(v: int): u16
  {
    v % 0x10000
  }

  /** A value of the table in its width. Values are taken modulo the width, so a negative one
      and its complement are the same. */
  function Cell(v: int, width: nat): seq<byte>
    requires Width(width)
  {
    if width == 8 then [Low8(v)] else if width == 16 then Le16(Low16(v)) else Le32(v % TWO_32)
  }

  /** The values that the assembler admits for a width. */
  predicate Admitted(v: int, width: nat)
  {
    if width == 8 then -128 <= v <= 255
    else if width == 16 then -32768 <= v <= 65537
    else -0x8000_0000 <= v < TWO_32
  }

  /** A value of the table, read back without a sign. */
  function Unsigned(cell: seq<byte>, width: nat): (v: nat)
    requires Width(width) && |cell| == width / 8
  {
    if width == 8 then cell[0] else if width == 16 then FromLe16(cell) else FromLe32(cell)
  }

  /** The same with a sign. */
  function Signed(cell: seq<byte>, width: nat): int
    requires Width(width) && |cell| == width / 8
  {
    var v := Unsigned(cell, width);
    if width == 8 then (if v < 0x80 then v else v - 0x100)
    else if width == 16 then (if v < 0x8000 then v else v - TWO_16)
    else if v < 0x8000_0000 then v else v - TWO_32
  }

  /** Every value that is admitted reads back, with or without a sign, except for the two that
      do not fit 16 bits: 65536 is stored as 0, and 65537 as 1. */
  lemma CellReadsBackIff(v: int, width: nat)
    requires Width(width) && Admitted(v, width)
    ensures var cell := Cell(v, width);
            && |cell| == width / 8
            && (Unsigned(cell, width) == v || Signed(cell, width) == v <==> !(width == 16 && v >= TWO_16))
            && (width == 16 && v >= TWO_16 ==> Unsigned(cell, width) == v - TWO_16)
  {
    if width == 16 {
      FromLe16Le16(Low16(v));
    } else if width == 32 {
      FromLe32Le32(v % TWO_32);
    }
  }

  /** The memory of the table: its values one behind the other. */
  function Cells(lut: seq<int>, width: nat): seq<byte>
    requires Width(width)
  {
    if lut == [] then [] else Cells(lut[..|lut| - 1], width) + Cell(lut[|lut| - 1], width)
  }

  function WordBytes(words: seq<u32>): (b: seq<byte>)
    ensures |b| == 4 * |words|
  {
    if words == [] then [] else WordBytes(words[..|words| - 1]) + Le32(words[|words| - 1])
  }

  lemma CellsNext(lut: seq<int>, i: nat, width: nat)
    requires Width(width) && i < |lut|
    ensures Cells(lut[..i + 1], width) == Cells(lut[..i], width) + Cell(lut[i], width)
  {
    assert lut[..i + 1][..i] == lut[..i];
  }

  lemma WordBytesNext(words: seq<u32>, w: u32)
    ensures WordBytes(words + [w]) == WordBytes(words) + Le32(w)
  {
    assert (words + [w])[..|words|] == words;
  }

  lemma TwoCells(lut: seq<int>, i: nat)
    requires i + 2 <= |lut|
    ensures Cells(lut[..i + 2], 16) == Cells(lut[..i], 16) + Le16(Low16(lut[i])) + Le16(Low16(lut[i + 1]))
  {
    CellsNext(lut, i, 16);
    CellsNext(lut, i + 1, 16);
  }

  lemma AddTwo(words: seq<u32>, cells: seq<byte>, a: u16, b: u16)
    requires WordBytes(words) == cells
    ensures a + b * 0x10000 < TWO_32
    ensures WordBytes(words + [a + b * 0x10000]) == cells + Le16(a) + Le16(b)
  {
    TwoHalves(a, b);
    WordBytesNext(words, a + b * 0x10000);
    AppendAssociates(cells, Le16(a), Le16(b));
  }

  lemma AddFour(words: seq<u32>, cells: seq<byte>, a: byte, b: byte, c: byte, d: byte)
    requires WordBytes(words) == cells
    ensures a + b * 0x100 + c * 0x10000 + d * 0x1000000 < TWO_32
    ensures WordBytes(words + [a + b * 0x100 + c * 0x10000 + d * 0x1000000]) == cells + [a, b, c, d]
  {
    FourBytes(a, b, c, d);
    WordBytesNext(words, a + b * 0x100 + c * 0x10000 + d * 0x1000000);
  }

  lemma FourCells(lut: seq<int>, i: nat)
    requires i + 4 <= |lut|
    ensures Cells(lut[..i + 4], 8)
            == Cells(lut[..i], 8) + [Low8(lut[i]), Low8(lut[i + 1]), Low8(lut[i + 2]), Low8(lut[i + 3])]
  {
    CellsNext(lut, i, 8);
    CellsNext(lut, i + 1, 8);
    CellsNext(lut, i + 2, 8);
    CellsNext(lut, i + 3, 8);
  }

  lemma FourBytes(a: byte, b: byte, c: byte, d: byte)
    ensures var w := a + b * 0x100 + c * 0x10000 + d * 0x1000000;
            w < TWO_32 && Le32(w) == [a, b, c, d]
  {
    var w := a + b * 0x100 + c * 0x10000 + d * 0x1000000;
    assert w % TWO_16 == a + b * 0x100 && w / TWO_16 == c + d * 0x100;
  }

  lemma TwoHalves(a: u16, b: u16)
    ensures a + b * 0x10000 < TWO_32 && Le32(a + b * 0x10000) == Le16(a) + Le16(b)
  {
    var w: nat := a + b * 0x10000;
    assert w % TWO_16 == a && w / TWO_16 == b;
  }

  /** The value `i` lies behind the ones before it, of which each takes its width. */
  lemma {:induction false} CellsAt(lut: seq<int>, width: nat, i: nat)
    requires Width(width) && i < |lut|
    ensures var at := if width == 8 then i else if width == 16 then 2 * i else 4 * i;
            && at + width / 8 <= |Cells(lut, width)|
            && Cells(lut, width)[at..at + width / 8] == Cell(lut[i], width)
  {
    CellsLength(lut[..i], width);
    CellsBegin(lut, width, i + 1);
    assert lut[..i + 1][..i] == lut[..i];
    ghost var front, cell := Cells(lut[..i], width), Cell(lut[i], width);
    assert (front + cell)[|front|..|front| + |cell|] == cell;
  }

  lemma {:induction false} CellsLength(lut: seq<int>, width: nat)
    requires Width(width)
    ensures |Cells(lut, width)| == if width == 8 then |lut| else if width == 16 then 2 * |lut| else 4 * |lut|
  {
    if lut != [] {
      CellsLength(lut[..|lut| - 1], width);
    }
  }

  lemma {:induction false} CellsBegin(lut: seq<int>, width: nat, i: nat)
    requires Width(width) && i <= |lut|
    ensures Cells(lut[..i], width) <= Cells(lut, width)
  {
    if i < |lut| {
      CellsBegin(lut[..|lut| - 1], width, i);
      assert lut[..|lut| - 1][..i] == lut[..i];
    } else {
      assert lut[..i] == lut;
    }
  }

  /** How many zeros fill the last word of the table. */
  function Missing(n: nat, width: nat): (m: nat)
    requires Width(width)
    ensures m < 4
  {
    if width == 8 then (4 - n % 4) % 4 else if width == 16 then n % 2 else 0
  }

  /** It is the least number that completes the word. */
  lemma MissingIsLeast(n: nat, width: nat)
    requires Width(width)
    ensures var m := Missing(n, width);
            if width == 8 then m < 4 && (n + m) % 4 == 0
            else if width == 16 then m < 2 && (n + m) % 2 == 0
            else m == 0
  {
    if width == 8 {
      var q, rest := n / 4, n % 4;
      assert n == 4 * q + rest;
      if rest != 0 {
        assert n + Missing(n, width) == 4 * (q + 1);
      }
    } else if width == 16 {
      var q, rest := n / 2, n % 2;
      assert n + Missing(n, width) == 2 * (q + rest);
    }
  }

  function Filled(lut: seq<int>, width: nat): seq<int>
    requires Width(width)
  {
    lut + Zeros(Missing(|lut|, width))
  }

  lemma FillNext(lut: seq<int>, width: nat)
    requires Width(width) && Missing(|lut|, width) > 0
    ensures Missing(|lut| + 1, width) == Missing(|lut|, width) - 1
    ensures lut + [0] + Zeros(Missing(|lut| + 1, width)) == lut + Zeros(Missing(|lut|, width))
  {
  }

  /** Appending zeros while the last word is incomplete. */
  method FillUp(lut0: seq<int>, width: nat) returns (lut: seq<int>)
    requires Width(width)
    ensures lut == Filled(lut0, width) && Missing(|lut|, width) == 0
  {
    lut := lut0;
    while Missing(|lut|, width) != 0
      invariant lut + Zeros(Missing(|lut|, width)) == Filled(lut0, width)
      decreases Missing(|lut|, width)
    {
      FillNext(lut, width);
      lut := lut + [0];
    }
  }

  method Words8(lut0: seq<int>) returns (words: seq<u32>)
    ensures WordBytes(words) == Cells(Filled(lut0, 8), 8)
  {
    var lut := FillUp(lut0, 8);
    ghost var count := |lut| / 4;
    assert |lut| == 4 * count;
    words := [];
    var i := 0;
    while i < |lut|
      invariant i == 4 * |words| <= 4 * count
      invariant WordBytes(words) == Cells(lut[..i], 8)
    {
      words := AddWord8(lut, i, words);
      i := i + 4;
    }
    assert lut[..i] == lut;
  }

  method AddWord8(lut: seq<int>, i: nat, before: seq<u32>) returns (words: seq<u32>)
    requires i + 4 <= |lut| && WordBytes(before) == Cells(lut[..i], 8)
    ensures |words| == |before| + 1 && WordBytes(words) == Cells(lut[..i + 4], 8)
  {
    FourCells(lut, i);
    var a: nat, b: nat, c: nat, d: nat := Low8(lut[i]), Low8(lut[i + 1]), Low8(lut[i + 2]), Low8(lut[i + 3]);
    AddFour(before, Cells(lut[..i], 8), a, b, c, d);
    words := before + [a + b * 0x100 + c * 0x10000 + d * 0x1000000];
  }

  method Words16(lut0: seq<int>) returns (words: seq<u32>)
    ensures WordBytes(words) == Cells(Filled(lut0, 16), 16)
  {
    var lut := FillUp(lut0, 16);
    ghost var count := |lut| / 2;
    assert |lut| == 2 * count;
    words := [];
    var i := 0;
    while i < |lut|
      invariant i == 2 * |words| <= 2 * count
      invariant WordBytes(words) == Cells(lut[..i], 16)
    {
      words := AddWord16(lut, i, words);
      i := i + 2;
    }
    assert lut[..i] == lut;
  }

  method AddWord16(lut: seq<int>, i: nat, before: seq<u32>) returns (words: seq<u32>)
    requires i + 2 <= |lut| && WordBytes(before) == Cells(lut[..i], 16)
    ensures |words| == |before| + 1 && WordBytes(words) == Cells(lut[..i + 2], 16)
  {
    TwoCells(lut, i);
    var a: nat, b: nat := Low16(lut[i]), Low16(lut[i + 1]);
    AddTwo(before, Cells(lut[..i], 16), a, b);
    words := before + [a + b * 0x10000];
  }

  method Words32(lut: seq<int>) returns (words: seq<u32>)
    ensures WordBytes(words) == Cells(Filled(lut, 32), 32)
  {
    words := [];
    for i := 0 to |lut|
      invariant WordBytes(words) == Cells(lut[..i], 32)
    {
      CellsNext(lut, i, 32);
      WordBytesNext(words, lut[i] % TWO_32);
      words := words + [lut[i] % TWO_32];
    }
    assert lut[..|lut|] == lut == Filled(lut, 32);
  }

  /** The table as words of 32 bits: the memory holds the values in order, filled up with
      zeros to a whole word. */
  method Words(lut: seq<int>, width: nat) returns (words: seq<u32>)
    requires Width(width)
    ensures WordBytes(words) == Cells(Filled(lut, width), width)
  {
    if width == 8 {
      words := Words8(lut);
    } else if width == 16 {
      words := Words16(lut);
    } else {
      words := Words32(lut);
    }
  }

  // ---- The file ----

  /** The header: version, hardware revision, header length in words, number of instructions,
      words of the table, its width, prefetching, trailing bits, end of file, one unused. */
  function Header(insts: byte, words: u16, meta: Meta, trailingBits: u16): (h: seq<byte>)
    requires Width(meta.width)
    ensures |h| == 12
  {
    [1, 0, 3, insts] + Le16(words)
    + [if meta.width == 8 then 0 else if meta.width == 16 then 1 else 2, Bit(meta.prefetch)]
    + Le16(trailingBits) + [Bit(meta.eofOn), 0]
  }

  /** What the fields of a header say. */
  predicate HeaderSays(h: seq<byte>, insts: nat, words: nat, meta: Meta)
  {
    && |h| == 12
    && h[0] == 1 && h[1] == 0 && h[2] == 3 && h[3] == insts
    && FromLe16(h[4..6]) == words
    && h[6] < 3 && meta.width == (match h[6] case 0 => 8 case 1 => 16 case _ => 32)
    && h[7] == (if meta.prefetch then 1 else 0)
    && FromLe16(h[8..10]) == 8 * meta.trailing
    && h[10] == (if meta.eofOn then 1 else 0) && h[11] == 0
  }

  lemma HeaderReads(insts: byte, words: u16, meta: Meta)
    requires Width(meta.width) && meta.trailing < 8192
    ensures HeaderSays(Header(insts, words, meta, 8 * meta.trailing), insts, words, meta)
  {
    var h := Header(insts, words, meta, 8 * meta.trailing);
    FromLe16Le16(words);
    FromLe16Le16(8 * meta.trailing);
    assert h[4..6] == Le16(words) && h[8..10] == Le16(8 * meta.trailing);
  }

  /** The 36 bytes of the instruction `k`. */
  function InstAt(code: seq<byte>, k: nat): seq<byte>
    requires 36 * k + 36 <= |code|
  {
    code[36 * k..36 * k + 36]
  }

  /** `code` holds `insts` one behind the other. */
  ghost predicate Holds(code: seq<byte>, insts: seq<Inst>)
  {
    && |code| == 36 * |insts|
    && forall k :: 0 <= k < |insts| ==> Faithful(insts[k], InstAt(code, k))
  }

  lemma HoldsNext(code: seq<byte>, insts: seq<Inst>, bytes: seq<byte>, inst: Inst)
    requires Holds(code, insts) && Faithful(inst, bytes)
    ensures Holds(code + bytes, insts + [inst])
  {
    forall k | 0 <= k <= |insts|
      ensures Faithful((insts + [inst])[k], InstAt(code + bytes, k))
    {
      if k < |insts| {
        assert InstAt(code + bytes, k) == InstAt(code, k);
      } else {
        assert InstAt(code + bytes, k) == bytes;
      }
    }
  }

  /** For each instruction there are settings that suit all of its inputs. */
  ghost predicate AllSuited(insts: seq<Inst>)
  {
    forall k :: 0 <= k < |insts| ==> Suitable(insts[k])
  }

  /** The loop over the instructions. */
  method EncodeAll(insts: seq<Inst>) returns (r: Option<seq<byte>>)
    requires forall k :: 0 <= k < |insts| ==> InstOk(insts[k])
    ensures r.Some? <==> AllSuited(insts)
    ensures r.Some? ==> Holds(r.value, insts)
  {
    var code: seq<byte> := [];
    for k := 0 to |insts|
      invariant AllSuited(insts[..k]) && Holds(code, insts[..k])
    {
      var inst := EncodeInst(insts[k]);
      if inst.None? {
        return None;
      }
      HoldsNext(code, insts[..k], inst.value, insts[k]);
      assert insts[..k + 1] == insts[..k] + [insts[k]];
      code := code + inst.value;
    }
    assert insts[..|insts|] == insts;
    r := Some(code);
  }

  /** insts_to_binary. A program is refused if it has more than eight instructions, if inputs
      of an instruction clash, or if a field of the header overflows; for the trailing bytes
      this happens at the largest number that the language allows. */
  method ToBinary(insts: seq<Inst>, meta: Meta, lut: seq<int>) returns (r: Option<seq<byte>>)
    requires forall k :: 0 <= k < |insts| ==> InstOk(insts[k])
    requires Width(meta.width) && meta.trailing <= 8192
    ensures r.Some? <==>
              && |insts| <= 8 && meta.trailing < 8192
              && |Cells(Filled(lut, meta.width), meta.width)| < 4 * TWO_16
              && AllSuited(insts)
    ensures r.Some? ==>
              && |r.value| >= 12 + 36 * |insts|
              && HeaderSays(r.value[..12], |insts|, |Cells(Filled(lut, meta.width), meta.width)| / 4, meta)
              && Holds(r.value[12..12 + 36 * |insts|], insts)
              && r.value[12 + 36 * |insts|..] == Cells(Filled(lut, meta.width), meta.width)
  {
    if |insts| > 8 {
      return None;
    }
    var words := Words(lut, meta.width);
    if |words| >= TWO_16 || meta.trailing * 8 >= TWO_16 {
      return None;
    }
    var header := Header(|insts|, |words|, meta, meta.trailing * 8);
    HeaderReads(|insts|, |words|, meta);
    var code := EncodeAll(insts);
    if code.None? {
      return None;
    }
    var table := WordBytes(words);
    var out := header + code.value + table;
    assert out[..12] == header && out[12..12 + 36 * |insts|] == code.value && out[12 + 36 * |insts|..] == table;
    r := Some(out);
  }
}
