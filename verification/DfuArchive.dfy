/** The archive that tools/mkdfu.py writes: a CPIO archive in the "new ASCII" format with an
    index of the flash addresses as its first member, padded and followed by the DFU suffix. */
module DfuArchive {
  import opened Arith
  import opened Bytes
  import opened Wrappers

  // ---- Padding ----

  /** The length that pad_bytes pads to. */
  function PaddedLength(n: nat, multiple: nat): nat
    requires multiple > 0
  {
    multiple * ((n + multiple - 1) / multiple)
  }

  lemma PaddedLengthBounds(n: nat, multiple: nat)
    requires multiple > 0
    ensures n <= PaddedLength(n, multiple) < n + multiple
    ensures PaddedLength(n, multiple) % multiple == 0
  {
    var x := n + multiple - 1;
    assert x == multiple * (x / multiple) + x % multiple;
    ModAdd(x / multiple, multiple, 0);
  }

  /** pad_bytes */
  function Pad(b: seq<byte>, multiple: nat): (p: seq<byte>)
    requires multiple > 0
    ensures |p| == PaddedLength(|b|, multiple) && |b| <= |p| && p[..|b|] == b
    ensures forall k :: |b| <= k < |p| ==> p[k] == 0
  {
    PaddedLengthBounds(|b|, multiple);
    b + Zeros(PaddedLength(|b|, multiple) - |b|)
  }

  // ---- Hexadecimal fields ----

  function HexDigit(v: nat): byte
    requires v < 16
  {
    if v < 10 then 48 + v else 87 + v
  }

  function DigitValue(b: byte): Option<nat>
  {
    if 48 <= b < 58 then Some(b - 48) else if 97 <= b < 103 then Some(b - 87) else None
  }

  /** The last `n` hexadecimal digits of `v`. */
  function Hex(v: nat, n: nat): (h: seq<byte>)
    ensures |h| == n
  {
    if n == 0 then [] else Hex(v / 16, n - 1) + [HexDigit(v % 16)]
  }

  function FromHex(h: seq<byte>): Option<nat>
  {
    if h == [] then Some(0)
    else
      var high, low := FromHex(h[..|h| - 1]), DigitValue(h[|h| - 1]);
      if high.Some? && low.Some? then Some(16 * high.value + low.value) else None
  }

  function Power16(n: nat): nat
  {
    if n == 0 then 1 else 16 * Power16(n - 1)
  }

  lemma {:induction false} FromHexHex(v: nat, n: nat)
    requires v < Power16(n)
    ensures FromHex(Hex(v, n)) == Some(v)
  {
    if n > 0 {
      FromHexHex(v / 16, n - 1);
      assert Hex(v, n)[..n - 1] == Hex(v / 16, n - 1);
    }
  }

  lemma FromHex8(v: u32)
    ensures FromHex(Hex(v, 8)) == Some(v)
  {
    assert Power16(4) == 0x10000;
    assert Power16(8) == TWO_32;
    FromHexHex(v, 8);
  }

  // ---- Members ----

  /** A member of the archive. */
  datatype Member = Member(name: seq<byte>, data: seq<byte>)

  /** The sizes that the format can hold. */
  predicate Fits(m: Member)
  {
    |m.name| + 1 < TWO_32 && |m.data| < TWO_32
  }

  /** "070701" */
  const MAGIC: seq<byte> := [48, 55, 48, 55, 48, 49]

  /** "TRAILER!!!" */
  const TRAILER: seq<byte> := [84, 82, 65, 73, 76, 69, 82, 33, 33, 33]

  /** "dfuinfo0.dat" */
  const DFUINFO: seq<byte> := [100, 102, 117, 105, 110, 102, 111, 48, 46, 100, 97, 116]

  /** Fields of eight hexadecimal digits each. */
  function HexFields(vs: seq<nat>): (h: seq<byte>)
    ensures |h| == 8 * |vs|
  {
    if vs == [] then [] else HexFields(vs[..|vs| - 1]) + Hex(vs[|vs| - 1], 8)
  }

  lemma SliceOfFront<T>(a: seq<T>, b: seq<T>, from: nat, to: nat)
    requires from <= to <= |a|
    ensures (a + b)[from..to] == a[from..to]
  {
  }

  lemma {:induction false} HexFieldsAt(vs: seq<nat>, k: nat)
    requires k < |vs|
    ensures HexFields(vs)[8 * k..8 * k + 8] == Hex(vs[k], 8)
  {
    if k < |vs| - 1 {
      HexFieldsAt(vs[..|vs| - 1], k);
      SliceOfFront(HexFields(vs[..|vs| - 1]), Hex(vs[|vs| - 1], 8), 8 * k, 8 * k + 8);
    }
  }

  /** make_cpio_header */
  function HeaderValues(nameLen: u32, fileLen: u32, trailer: bool): (vs: seq<nat>)
    ensures |vs| == 13
  {
    var mode := if trailer then 0 else 0x81A4;
    var nlink := if trailer then 1 else 0;
    [0, mode, 0, 0, nlink, 0, fileLen, 0, 0, 0, 0, nameLen, 0]
  }

  function Header(nameLen: u32, fileLen: u32, trailer: bool): (h: seq<byte>)
    ensures |h| == 110
  {
    MAGIC + HexFields(HeaderValues(nameLen, fileLen, trailer))
  }

  /** The field `k` of a header, of thirteen behind the magic number. */
  function HeaderField(h: seq<byte>, k: nat): Option<nat>
    requires |h| == 110 && k < 13
  {
    FromHex(h[6 + 8 * k..14 + 8 * k])
  }

  /** A member is a regular file that its owner can write and everyone can read, without links;
      the trailer is no file and has one link. Of the other fields only the lengths are set. */
  lemma HeaderSays(nameLen: u32, fileLen: u32, trailer: bool, k: nat)
    requires k < 13
    ensures Header(nameLen, fileLen, trailer)[..6] == MAGIC
    ensures HeaderField(Header(nameLen, fileLen, trailer), k) ==
            if k == 1 then Some(if trailer then 0 else 0x81A4)
            else if k == 4 then Some(if trailer then 1 else 0)
            else if k == 6 then Some(fileLen)
            else if k == 11 then Some(nameLen)
            else Some(0)
  {
    var vs := HeaderValues(nameLen, fileLen, trailer);
    HexFieldsAt(vs, k);
    FromHex8(vs[k]);
    var h := Header(nameLen, fileLen, trailer);
    assert h[6 + 8 * k..14 + 8 * k] == HexFields(vs)[8 * k..8 * k + 8];
  }

  /** The bytes of a member: _add_cpio_entry. */
  function Entry(m: Member, trailer: bool): seq<byte>
    requires Fits(m)
  {
    Pad(Header(|m.name| + 1, |m.data|, trailer) + m.name + [0], 4) + Pad(m.data, 4)
  }

  // ---- A reader ----

  /** Reads one member; the second result is how many bytes it takes. */
  function ReadEntry(b: seq<byte>): Option<(Member, nat)>
  {
    if |b| < 110 || b[..6] != MAGIC then None
    else
      var nameLen, fileLen := FromHex(b[94..102]), FromHex(b[54..62]);
      if nameLen.None? || fileLen.None? || nameLen.value == 0 then None
      else
        var dataAt := PaddedLength(110 + nameLen.value, 4);
        var next := dataAt + PaddedLength(fileLen.value, 4);
        if next > |b| || dataAt + fileLen.value > |b| || 110 + nameLen.value > |b|
           || b[110 + nameLen.value - 1] != 0 then None
        else Some((Member(b[110..110 + nameLen.value - 1], b[dataAt..dataAt + fileLen.value]), next))
  }

  /** All members up to the trailer. */
  function ReadAll(b: seq<byte>): Option<seq<Member>>
    decreases |b|
  {
    var first := ReadEntry(b);
    if first.None? then None
    else if first.value.0.name == TRAILER then Some([])
    else if first.value.1 == 0 then None
    else
      var rest := ReadAll(b[first.value.1..]);
      if rest.Some? then Some([first.value.0] + rest.value) else None
  }

  /** Where the parts of a member are. */
  lemma EntrySlices(h: seq<byte>, name: seq<byte>, data: seq<byte>, rest: seq<byte>)
    requires |h| == 110
    ensures var p, b := PaddedLength(111 + |name|, 4), Pad(h + name + [0], 4) + Pad(data, 4) + rest;
            && p + |data| <= p + PaddedLength(|data|, 4) <= |b| && 111 + |name| <= p
            && b[..110] == h && b[110..110 + |name|] == name && b[110 + |name|] == 0
            && b[p..p + |data|] == data
  {
    var start := h + name + [0];
    var front, back := Pad(start, 4), Pad(data, 4);
    var b := front + back + rest;
    assert b[..|start|] == front[..|start|] == start;
    assert b[..110] == b[..|start|][..110];
    assert b[110..110 + |name|] == b[..|start|][110..110 + |name|] == name;
    assert b[110 + |name|] == b[..|start|][110 + |name|];
    assert b[|front|..|front| + |data|] == back[..|data|];
  }

  lemma HeaderRead(b: seq<byte>, nameLen: u32, fileLen: u32, trailer: bool)
    requires |b| >= 110 && b[..110] == Header(nameLen, fileLen, trailer)
    ensures b[..6] == MAGIC
    ensures FromHex(b[54..62]) == Some(fileLen) && FromHex(b[94..102]) == Some(nameLen)
  {
    HeaderSays(nameLen, fileLen, trailer, 6);
    HeaderSays(nameLen, fileLen, trailer, 11);
    assert b[..6] == b[..110][..6] && b[54..62] == b[..110][54..62] && b[94..102] == b[..110][94..102];
  }

  lemma ReadParts(b: seq<byte>, name: seq<byte>, data: seq<byte>, p: nat, next: nat)
    requires |b| >= 110 && b[..6] == MAGIC
    requires FromHex(b[54..62]) == Some(|data|) && FromHex(b[94..102]) == Some(|name| + 1)
    requires p == PaddedLength(111 + |name|, 4) && next == p + PaddedLength(|data|, 4)
    requires p + |data| <= next <= |b| && 111 + |name| <= p
    requires b[110..110 + |name|] == name && b[110 + |name|] == 0 && b[p..p + |data|] == data
    ensures ReadEntry(b) == Some((Member(name, data), next))
  {
  }

  lemma EntryLength(m: Member, trailer: bool)
    requires Fits(m)
    ensures |Entry(m, trailer)| == PaddedLength(111 + |m.name|, 4) + PaddedLength(|m.data|, 4) >= 110
  {
    PaddedLengthBounds(111 + |m.name|, 4);
  }

  lemma ReadEntryEntry(m: Member, trailer: bool, rest: seq<byte>)
    requires Fits(m)
    ensures ReadEntry(Entry(m, trailer) + rest) == Some((m, |Entry(m, trailer)|))
    ensures |Entry(m, trailer)| >= 110
  {
    var h := Header(|m.name| + 1, |m.data|, trailer);
    EntrySlices(h, m.name, m.data, rest);
    var b := Entry(m, trailer) + rest;
    HeaderRead(b, |m.name| + 1, |m.data|, trailer);
    EntryLength(m, trailer);
    ReadParts(b, m.name, m.data, PaddedLength(111 + |m.name|, 4), |Entry(m, trailer)|);
  }

  ghost predicate FitAll(ms: seq<Member>)
  {
    forall i :: 0 <= i < |ms| ==> Fits(ms[i])
  }

  function Entries(ms: seq<Member>): seq<byte>
    requires FitAll(ms)
  {
    if ms == [] then [] else Entry(ms[0], false) + Entries(ms[1..])
  }

  const END := Member(TRAILER, [])

  lemma ReadFirst(ms: seq<Member>, end: seq<byte>)
    requires ms != [] && FitAll(ms) && FitAll(ms[1..]) && ms[0].name != TRAILER
    requires ReadAll(Entries(ms[1..]) + end) == Some(ms[1..])
    ensures ReadAll(Entries(ms) + end) == Some(ms)
  {
    ReadTwo(ms[0], Entries(ms[1..]), end, ms[1..]);
    assert ms == [ms[0]] + ms[1..];
  }

  lemma ReadTwo(m: Member, bytes: seq<byte>, end: seq<byte>, ms: seq<Member>)
    requires Fits(m) && m.name != TRAILER && ReadAll(bytes + end) == Some(ms)
    ensures ReadAll(Entry(m, false) + bytes + end) == Some([m] + ms)
  {
    var e := Entry(m, false);
    ReadEntryEntry(m, false, bytes + end);
    AppendAssociates(e, bytes, end);
    assert (e + (bytes + end))[|e|..] == bytes + end;
  }

  lemma ReadEnd(rest: seq<byte>)
    ensures ReadAll(Entry(END, true) + rest) == Some([])
  {
    ReadEntryEntry(END, true, rest);
  }

  /** The reader gets back every member in order, and stops where `end` does. */
  lemma {:induction false} ReadAllEntries(ms: seq<Member>, end: seq<byte>)
    requires FitAll(ms) && forall i :: 0 <= i < |ms| ==> ms[i].name != TRAILER
    requires ReadAll(end) == Some([])
    ensures ReadAll(Entries(ms) + end) == Some(ms)
  {
    if ms == [] {
      assert Entries(ms) + end == end;
    } else {
      ReadAllEntries(ms[1..], end);
      ReadFirst(ms, end);
    }
  }

  // ---- Files and their chunks ----

  /** A piece of a file at a flash address. */
  datatype Piece = Piece(name: seq<byte>, address: nat, flags: u32, data: seq<byte>)

  function MemberOf(p: Piece): Member
  {
    Member(p.name, p.data)
  }

  /** The decimal digits of a number. */
  function Digits(i: nat): (d: seq<byte>)
    ensures |d| >= 1
  {
    if i < 10 then [48 + i] else Digits(i / 10) + [48 + i % 10]
  }

  lemma {:induction false} DigitsFew(i: nat, n: nat, limit: nat)
    requires n >= 1 && i < limit && limit == Power10(n)
    ensures |Digits(i)| <= n
  {
    if i >= 10 {
      DigitsFew(i / 10, n - 1, Power10(n - 1));
    }
  }

  function Power10(n: nat): nat
  {
    if n == 0 then 1 else 10 * Power10(n - 1)
  }

  /** Reading decimal digits. */
  function FromDigits(d: seq<byte>): int
  {
    if d == [] then 0 else 10 * FromDigits(d[..|d| - 1]) + (d[|d| - 1] as int - 48)
  }

  /** The digits are those of the number, without a zero in front. */
  lemma {:induction false} FromDigitsDigits(i: nat)
    ensures FromDigits(Digits(i)) == i
    ensures forall k :: 0 <= k < |Digits(i)| ==> 48 <= Digits(i)[k] < 58
    ensures i > 0 ==> Digits(i)[0] != 48
  {
    var d := Digits(i);
    if i >= 10 {
      FromDigitsDigits(i / 10);
      assert d[..|d| - 1] == Digits(i / 10);
    } else {
      assert d[..|d| - 1] == [];
    }
  }

  /** The chunks of a file have different names. */
  lemma ChunkNamesDiffer(name: seq<byte>, i: nat, j: nat)
    requires i != j
    ensures ChunkName(name, i) != ChunkName(name, j)
  {
    NumberOf(name, i);
    NumberOf(name, j);
  }

  /** The number of a chunk can be read off its name. */
  lemma NumberOf(name: seq<byte>, i: nat)
    ensures var n := ChunkName(name, i);
            name <= n && (i == 0 <==> n == name)
            && (i > 0 ==> |n| > |name| && n[|name|] == 46 && FromDigits(n[|name| + 1..]) == i)
  {
    FromDigitsDigits(i);
    if i > 0 {
      assert ChunkName(name, i)[|name| + 1..] == Digits(i);
    }
  }

  /** The name of the chunk `i` of a file: "app.bin", "app.bin.1", ... */
  function ChunkName(name: seq<byte>, i: nat): seq<byte>
  {
    if i == 0 then name else name + [46] + Digits(i)
  }

  function Least(a: nat, b: nat): nat
  {
    if a < b then a else b
  }

  /** What reading a file `n` bytes at a time gives, up to the first empty read. */
  function Chunks(content: seq<byte>, n: nat): (chunks: seq<seq<byte>>)
  {
    if content == [] || n == 0 then []
    else [content[..Least(n, |content|)]] + Chunks(content[Least(n, |content|)..], n)
  }

  function Concat(parts: seq<seq<byte>>): seq<byte>
  {
    if parts == [] then [] else parts[0] + Concat(parts[1..])
  }

  /** The chunks make up the file, and all but the last are full. */
  lemma {:induction false} ChunksConcat(content: seq<byte>, n: nat)
    requires n > 0
    ensures Concat(Chunks(content, n)) == content
    ensures forall k :: 0 <= k < |Chunks(content, n)| ==>
              && 0 < |Chunks(content, n)[k]| <= n
              && (k < |Chunks(content, n)| - 1 ==> |Chunks(content, n)[k]| == n)
    decreases content
  {
    if content != [] {
      var m := Least(n, |content|);
      ChunksConcat(content[m..], n);
      assert content == content[..m] + content[m..];
      if m == |content| {
        assert content[m..] == [];
      }
    }
  }

  /** With a chunk size of 0 the first read is empty, and the file is dropped. */
  lemma ChunksCompleteIff(content: seq<byte>, n: nat)
    ensures Concat(Chunks(content, n)) == content <==> n > 0 || content == []
  {
    if n > 0 {
      ChunksConcat(content, n);
    }
  }

  /** The pieces of a file from its chunk `i` on, which belongs at `address`. */
  function FilePieces(name: seq<byte>, address: nat, chunks: seq<seq<byte>>, i: nat): (ps: seq<Piece>)
    ensures |ps| == |chunks|
    decreases chunks
  {
    if chunks == [] then []
    else [Piece(ChunkName(name, i), address, 0, chunks[0])]
         + FilePieces(name, address + |chunks[0]|, chunks[1..], i + 1)
  }

  /** The piece `k` of a file lies `k` full chunks behind its start. */
  lemma {:induction false} FilePieceAt(name: seq<byte>, address: nat, chunks: seq<seq<byte>>, i: nat, n: nat, k: nat)
    requires k < |chunks| && forall j :: 0 <= j < |chunks| - 1 ==> |chunks[j]| == n
    ensures FilePieces(name, address, chunks, i)[k] == Piece(ChunkName(name, i + k), address + n * k, 0, chunks[k])
    decreases k
  {
    if k > 0 {
      FilePieceAt(name, address + n, chunks[1..], i + 1, n, k - 1);
      MulNext(n, k - 1);
    }
  }

  // ---- The index ----

  /** A record of the index: DFUInfo. */
  datatype Info = Info(address: nat, flags: u32, name: seq<byte>, md5: seq<byte>)

  /** A field of fixed width: cut off or filled with zeros. */
  function Fixed(b: seq<byte>, n: nat): (f: seq<byte>)
    ensures |f| == n
  {
    if |b| >= n then b[..n] else b + Zeros(n - |b|)
  }

  function Record(i: Info): (r: seq<byte>)
    requires i.address < TWO_32
    ensures |r| == 88
  {
    Le32(i.address) + Le32(i.flags) + Fixed(i.name, 64) + Fixed(i.md5, 16)
  }

  /** What is in front of the first zero. */
  function Trim(b: seq<byte>): seq<byte>
  {
    if b == [] || b[0] == 0 then [] else [b[0]] + Trim(b[1..])
  }

  function ReadRecord(b: seq<byte>): Info
    requires |b| == 88
  {
    Info(FromLe32(b[..4]), FromLe32(b[4..8]), Trim(b[8..72]), b[72..88])
  }

  lemma {:induction false} TrimFixed(b: seq<byte>, z: seq<byte>)
    requires 0 !in b && (z != [] ==> z[0] == 0)
    ensures Trim(b + z) == b
  {
    if b == [] {
      assert b + z == z;
    } else {
      assert (b + z)[1..] == b[1..] + z;
      TrimFixed(b[1..], z);
    }
  }

  /** A record reads back if and only if its name fits the field. */
  lemma ReadRecordIff(i: Info)
    requires i.address < TWO_32 && 0 !in i.name && |i.md5| == 16
    ensures ReadRecord(Record(i)) == i <==> |i.name| <= 64
  {
    var r := Record(i);
    FromLe32Le32(i.address);
    FromLe32Le32(i.flags);
    assert r[..4] == Le32(i.address) && r[4..8] == Le32(i.flags);
    assert r[8..72] == Fixed(i.name, 64) && r[72..88] == Fixed(i.md5, 16) == i.md5;
    if |i.name| > 64 {
      TrimShortens(r[8..72]);
    } else if |i.name| == 64 {
      assert i.name + [] == i.name[..64];
      TrimFixed(i.name, []);
    } else {
      TrimFixed(i.name, Zeros(64 - |i.name|));
    }
  }

  lemma {:induction false} TrimShortens(b: seq<byte>)
    ensures |Trim(b)| <= |b|
  {
    if b != [] {
      TrimShortens(b[1..]);
    }
  }

  ghost predicate AddressesFit(index: seq<Info>)
  {
    forall k :: 0 <= k < |index| ==> index[k].address < TWO_32
  }

  function Records(index: seq<Info>): (r: seq<byte>)
    requires AddressesFit(index)
    ensures |r| == 88 * |index|
  {
    if index == [] then [] else Records(index[..|index| - 1]) + Record(index[|index| - 1])
  }

  lemma RecordsNext(index: seq<Info>, k: nat)
    requires k < |index| && AddressesFit(index[..k]) && index[k].address < TWO_32
    ensures AddressesFit(index[..k + 1])
    ensures Records(index[..k + 1]) == Records(index[..k]) + Record(index[k])
  {
    assert index[..k + 1] == index[..k] + [index[k]];
    assert index[..k + 1][..k] == index[..k];
  }

  /** Where a record is in the index. */
  lemma {:induction false} RecordsAt(index: seq<Info>, k: nat)
    requires AddressesFit(index) && k < |index|
    ensures Records(index)[88 * k..88 * k + 88] == Record(index[k])
  {
    if k < |index| - 1 {
      RecordsAt(index[..|index| - 1], k);
      SliceOfFront(Records(index[..|index| - 1]), Record(index[|index| - 1]), 88 * k, 88 * k + 88);
    }
  }

  // ---- The writer ----

  const BLOCK: nat := 10240
  const VID: u16 := 12346

  /** The first 12 bytes of the DFU suffix, Appendix B of the USB DFU specification 1.1: device
      release, product, vendor, version of the specification, signature, length. */
  function Suffix(pid: u16): (s: seq<byte>)
    ensures |s| == 12
  {
    Le16(0xFFFF) + Le16(pid) + Le16(VID) + Le16(0x0100) + [85, 70, 68] + [16]
  }

  function Members(pieces: seq<Piece>): (ms: seq<Member>)
    ensures |ms| == |pieces|
  {
    seq(|pieces|, k requires 0 <= k < |pieces| => MemberOf(pieces[k]))
  }

  function InfoOf(p: Piece, md5: seq<byte> -> seq<byte>): Info
  {
    Info(p.address, p.flags, p.name, md5(p.data))
  }

  /** The index of the pieces. */
  function Index(pieces: seq<Piece>, md5: seq<byte> -> seq<byte>): (index: seq<Info>)
    ensures |index| == |pieces|
  {
    seq(|pieces|, k requires 0 <= k < |pieces| => InfoOf(pieces[k], md5))
  }

  /** The record `k` of the index describes the piece `k`, if and only if its name fits. */
  lemma IndexRead(pieces: seq<Piece>, md5: seq<byte> -> seq<byte>, k: nat)
    requires k < |pieces| && AddressesFit(Index(pieces, md5))
    requires 0 !in pieces[k].name && |md5(pieces[k].data)| == 16
    ensures ReadRecord(Records(Index(pieces, md5))[88 * k..88 * k + 88])
            == Info(pieces[k].address, pieces[k].flags, pieces[k].name, md5(pieces[k].data))
            <==> |pieces[k].name| <= 64
  {
    RecordsAt(Index(pieces, md5), k);
    ReadRecordIff(Index(pieces, md5)[k]);
  }

  lemma {:induction false} ConcatEntries(entries: seq<seq<byte>>, ms: seq<Member>, last: seq<byte>)
    requires FitAll(ms) && |entries| == |ms|
    requires forall k :: 0 <= k < |ms| ==> entries[k] == Entry(ms[k], false)
    ensures Concat(entries + [last]) == Entries(ms) + last
  {
    if ms == [] {
      assert entries + [last] == [last];
      assert [last][1..] == [];
      assert last + [] == last;
    } else {
      ConcatEntries(entries[1..], ms[1..], last);
      assert (entries + [last])[1..] == entries[1..] + [last];
      AppendAssociates(entries[0], Entries(ms[1..]), last);
    }
  }

  /** The class EspDfuWriter. */
  class EspDfuWriter {
    const pid: u16
    const partSize: nat
    const md5: seq<byte> -> seq<byte>
    const crc: seq<byte> -> u32
    var entries: seq<seq<byte>>
    var index: seq<Info>

    // What was added so far.
    ghost var pieces: seq<Piece>

    ghost predicate Valid()
      reads this
    {
      && |entries| == |pieces| && index == Index(pieces, md5)
      && (forall k :: 0 <= k < |pieces| ==>
            Fits(MemberOf(pieces[k])) && entries[k] == Entry(MemberOf(pieces[k]), false))
    }

    constructor (pid: u16, partSize: nat, md5: seq<byte> -> seq<byte>, crc: seq<byte> -> u32)
      ensures Valid() && pieces == []
      ensures this.pid == pid && this.partSize == partSize && this.md5 == md5 && this.crc == crc
    {
      this.pid, this.partSize, this.md5, this.crc := pid, partSize, md5, crc;
      entries, index, pieces := [], [], [];
    }

    /** _add_cpio_flash_entry */
    method AddFlashEntry(name: seq<byte>, address: nat, data: seq<byte>, flags: u32)
      requires Valid() && Fits(Member(name, data))
      modifies this
      ensures Valid() && pieces == old(pieces) + [Piece(name, address, flags, data)]
    {
      index := index + [Info(address, flags, name, md5(data))];
      entries := entries + [Entry(Member(name, data), false)];
      pieces := pieces + [Piece(name, address, flags, data)];
      assert Members(pieces) == Members(old(pieces)) + [Member(name, data)];
      assert Index(pieces, md5) == Index(old(pieces), md5) + [Info(address, flags, name, md5(data))];
    }

    /** add_file: a file is split into chunks of `partSize` bytes, one behind the other. */
    method AddFile(address: nat, name: seq<byte>, content: seq<byte>)
      requires Valid() && |name| < 0x1000_0000 && |content| < TWO_32
      modifies this
      ensures Valid()
      ensures pieces == old(pieces) + FilePieces(name, address, Chunks(content, partSize), 0)
    {
      var rest, at, i := content, address, 0;
      ghost var all := FilePieces(name, address, Chunks(content, partSize), 0);
      ghost var before := pieces;
      assert before + all == before + FilePieces(name, at, Chunks(rest, partSize), i);
      while rest != [] && partSize > 0
        invariant Valid() && |rest| + i <= |content|
        invariant before + all == pieces + FilePieces(name, at, Chunks(rest, partSize), i)
        decreases |rest|
      {
        var n := Least(partSize, |rest|);
        var chunk := rest[..n];
        ghost var tail := FilePieces(name, at + n, Chunks(rest[n..], partSize), i + 1);
        NameFits(name, i, chunk);
        ChunkNext(name, at, rest, partSize, i);
        AppendAssociates(pieces, [Piece(ChunkName(name, i), at, 0, chunk)], tail);
        AddFlashEntry(ChunkName(name, i), at, chunk, 0);
        rest, at, i := rest[n..], at + n, i + 1;
      }
    }

    /** finish, for the first call. It fails if an address does not fit 32 bits. A reader of
        the archive finds the index first, then every piece in order with its exact bytes; the
        length is a number of blocks and the suffix. */
    method Finish() returns (r: Option<seq<byte>>)
      requires Valid() && 88 * |pieces| < TWO_32
      requires forall k :: 0 <= k < |pieces| ==> pieces[k].name != TRAILER
      modifies this`entries
      ensures r.Some? <==> AddressesFit(Index(old(pieces), md5))
      ensures r.Some? ==>
                && IsSealed(r.value, pid, crc)
                && ReadAll(r.value) == Some([Member(DFUINFO, Records(Index(old(pieces), md5)))] + Members(old(pieces)))
    {
      var dfuinfo := IndexBytes();
      if dfuinfo.None? {
        return None;
      }
      var first, end := Member(DFUINFO, dfuinfo.value), Entry(END, true);
      ghost var ms := [first] + Members(pieces);
      AddFirst(first);
      entries := entries + [end];
      var out := Concat(entries);
      Complete(ms, end, pid, crc);
      out := Pad(out, BLOCK);
      out := out + Suffix(pid);
      out := out + Le32(crc(out));
      r := Some(out);
    }

    /** The entry that is added last and put first. */
    method AddFirst(first: Member)
      requires Valid() && Fits(first)
      modifies this`entries
      ensures forall last :: Concat(entries + [last]) == Entries([first] + Members(pieces)) + last
      ensures FitAll(Members(pieces))
    {
      ghost var ms := [first] + Members(pieces);
      entries := [Entry(first, false)] + entries;
      assert forall k :: 0 <= k < |ms| ==> Fits(ms[k]) && entries[k] == Entry(ms[k], false);
      forall last
        ensures Concat(entries + [last]) == Entries(ms) + last
      {
        ConcatEntries(entries, ms, last);
      }
    }

    /** The contents of the index. */
    method IndexBytes() returns (r: Option<seq<byte>>)
      ensures r.Some? <==> AddressesFit(index)
      ensures r.Some? ==> r.value == Records(index)
    {
      var dfuinfo: seq<byte> := [];
      for k := 0 to |index|
        invariant AddressesFit(index[..k]) && dfuinfo == Records(index[..k])
      {
        if index[k].address >= TWO_32 {
          return None;
        }
        RecordsNext(index, k);
        dfuinfo := dfuinfo + Record(index[k]);
      }
      assert index[..|index|] == index;
      r := Some(dfuinfo);
    }
  }

  /** The file with these contents: padding, suffix and checksum are added. */
  function Sealed(body: seq<byte>, pid: u16, crc: seq<byte> -> u32): seq<byte>
  {
    var out := Pad(body, BLOCK) + Suffix(pid);
    out + Le32(crc(out))
  }

  lemma SealedParts(body: seq<byte>, pid: u16, crc: seq<byte> -> u32)
    ensures var a := Sealed(body, pid, crc);
            && IsSealed(a, pid, crc)
            && |body| <= |a| && a[..|body|] == body
  {
    PaddedLengthBounds(|body|, BLOCK);
    var padded := Pad(body, BLOCK);
    var a, out := Sealed(body, pid, crc), padded + Suffix(pid);
    assert |a| - 16 == |padded|;
    assert a[..|a| - 4] == out;
    assert a[|a| - 16..|a| - 4] == Suffix(pid) && a[|a| - 4..] == Le32(crc(out));
    SuffixReads(pid);
    FromLe32Le32(crc(out));
    assert a[..|body|] == padded[..|body|];
  }

  /** Whole blocks of 10240 bytes, the fields of the suffix ("UFD" is the signature), and the
      checksum of all this. */
  ghost predicate IsSealed(a: seq<byte>, pid: u16, crc: seq<byte> -> u32)
  {
    && |a| >= 16 && (|a| - 16) % 10240 == 0
    && SuffixSays(a[|a| - 16..|a| - 4], pid)
    && FromLe32(a[|a| - 4..]) == crc(a[..|a| - 4])
  }

  predicate SuffixSays(s: seq<byte>, pid: u16)
  {
    && |s| == 12
    && FromLe16(s[..2]) == 0xFFFF && FromLe16(s[2..4]) == pid && FromLe16(s[4..6]) == 12346
    && FromLe16(s[6..8]) == 0x0100 && s[8] == 0x55 && s[9] == 0x46 && s[10] == 0x44 && s[11] == 16
  }

  lemma SuffixReads(pid: u16)
    ensures SuffixSays(Suffix(pid), pid)
  {
    var s := Suffix(pid);
    var release, version: u16 := 0xFFFF, 0x0100;
    FromLe16Le16(release);
    FromLe16Le16(pid);
    FromLe16Le16(VID);
    FromLe16Le16(version);
    assert s[..2] == Le16(release) && s[2..4] == Le16(pid) && s[4..6] == Le16(VID) && s[6..8] == Le16(version);
  }

  lemma Readable(ms: seq<Member>, end: seq<byte>, a: seq<byte>)
    requires FitAll(ms) && forall i :: 0 <= i < |ms| ==> ms[i].name != TRAILER
    requires forall rest :: ReadAll(end + rest) == Some([])
    requires |Entries(ms) + end| <= |a| && a[..|Entries(ms) + end|] == Entries(ms) + end
    ensures ReadAll(a) == Some(ms)
  {
    var fill := a[|Entries(ms) + end|..];
    Refill(Entries(ms), end, a);
    ReadAllEntries(ms, end + fill);
  }

  lemma Refill(body: seq<byte>, end: seq<byte>, a: seq<byte>)
    requires |body + end| <= |a| && a[..|body + end|] == body + end
    ensures a == body + (end + a[|body + end|..])
  {
    AppendAssociates(body, end, a[|body + end|..]);
  }

  lemma Complete(ms: seq<Member>, end: seq<byte>, pid: u16, crc: seq<byte> -> u32)
    requires FitAll(ms) && forall i :: 0 <= i < |ms| ==> ms[i].name != TRAILER
    requires end == Entry(END, true)
    ensures var a := Sealed(Entries(ms) + end, pid, crc);
            IsSealed(a, pid, crc) && ReadAll(a) == Some(ms)
  {
    forall rest
      ensures ReadAll(end + rest) == Some([])
    {
      ReadEnd(rest);
    }
    SealedParts(Entries(ms) + end, pid, crc);
    Readable(ms, end, Sealed(Entries(ms) + end, pid, crc));
  }

  lemma NameFits(name: seq<byte>, i: nat, chunk: seq<byte>)
    requires |name| < 0x1000_0000 && i < TWO_32 && |chunk| < TWO_32
    ensures Fits(Member(ChunkName(name, i), chunk))
  {
    assert Power10(5) == 100000;
    assert Power10(10) == 10000000000;
    DigitsFew(i, 10, Power10(10));
  }

  lemma ChunkNext(name: seq<byte>, at: nat, rest: seq<byte>, n: nat, i: nat)
    requires rest != [] && n > 0
    ensures var m := Least(n, |rest|);
            FilePieces(name, at, Chunks(rest, n), i)
            == [Piece(ChunkName(name, i), at, 0, rest[..m])] + FilePieces(name, at + m, Chunks(rest[m..], n), i + 1)
  {
    var m := Least(n, |rest|);
    assert Chunks(rest, n)[1..] == Chunks(rest[m..], n);
  }
}
