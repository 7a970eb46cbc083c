/** Encoding BitScrambler instructions: the opcode fields and insts_to_binary of
    tools/bsasm.py. */
module BsEncoder {
  import opened Arith
  import opened Bytes
  import opened BsBits
  import opened BsInputs
  import opened Wrappers

  // ---- Opcodes ----

  datatype Change = Add | LdCtd | LdCti | AddCti

  /** An opcode; `C` is how a condition is given. */
  datatype Opcode<C> =
    | Loop(c: bool, endVal: u16, ctrAdd: nat, tgt: nat)
    | Count(kind: Change, c: bool, h: bool, l: bool, value: u16)
    | If(negate: bool, cond: C, tgt: nat)

  const NOP: Opcode<Input> := Count(Add, false, true, true, 0)

  predicate OpOk(op: Opcode<Input>)
  {
    match op
    case Loop(_, _, ctrAdd, _) => ctrAdd < 32
    case Count(kind, _, _, _, value) => kind == LdCti || kind == AddCti ==> value == 0
    case If(_, cond, _) => cond.sel < 128
  }

  /** The bits 16 to 18 of an opcode. */
  function Code(op: Opcode<Input>): nat
  {
    match op
    case Loop(_, _, _, _) => 0
    case Count(kind, _, _, _, _) =>
      (match kind
       case Add => 0
       case LdCtd => 3
       case LdCti => 4
       case AddCti => 5)
    case If(negate, _, _) => if negate then 2 else 1
  }

  /** The opcode word, field by field. */
  function Encode(op: Opcode<Input>): nat
  {
    match op
    case Loop(c, endVal, ctrAdd, tgt) =>
      Or(Or(Or(Or(0x2000000, Shl(Bit(c), 24)), Shl(tgt, 21)), Shl(endVal, 5)), ctrAdd)
    case Count(_, c, h, l, value) =>
      Or(Or(Or(Or(Code(op) * 0x10000, Shl(Bit(c), 24)), Shl(Bit(h), 23)), Shl(Bit(l), 22)), value)
    case If(_, cond, tgt) =>
      Or(Or(Code(op) * 0x10000, Shl(tgt, 21)), cond.sel)
  }

  /** Reading an opcode word. */
  function Decode(o: nat): Opcode<nat>
  {
    var code := o / 0x10000 % 8;
    if o / 0x2000000 % 2 == 1 then
      Loop(o / 0x1000000 % 2 == 1, o / 32 % 0x10000, o % 32, o / 0x200000 % 8)
    else if code == 1 || code == 2 then
      If(code == 2, o % 128, o / 0x200000 % 8)
    else
      Count(if code == 0 then Add else if code == 3 then LdCtd else if code == 4 then LdCti else AddCti,
            o / 0x1000000 % 2 == 1, o / 0x800000 % 2 == 1, o / 0x400000 % 2 == 1, o % 0x10000)
  }

  function Plain(op: Opcode<Input>): Opcode<nat>
  {
    match op
    case Loop(c, e, a, t) => Loop(c, e, a, t)
    case Count(k, c, h, l, v) => Count(k, c, h, l, v)
    case If(n, cond, t) => If(n, cond.sel, t)
  }

  lemma Powers()
    ensures Power(1) == 2 && Power(3) == 8 && Power(5) == 32 && Power(7) == 128
    ensures Power(16) == 0x10000 && Power(21) == 0x200000 && Power(22) == 0x400000
    ensures Power(23) == 0x800000 && Power(24) == 0x1000000 && Power(26) == 0x4000000
  {
    assert Power(8) == 256;
    assert Power(12) == 4096;
    assert Power(16) == 0x10000;
    assert Power(20) == 0x100000;
    assert Power(24) == 0x1000000;
  }

  lemma {:induction false} ShlPower(v: nat, k: nat)
    ensures Shl(v, k) == v * Power(k)
  {
    if k > 0 {
      ShlPower(v, k - 1);
    }
  }

  /** OrBetween with the weights 2^k and 2^(k+w) as numbers. */
  lemma OrField(low: nat, high: nat, f: nat, k: nat, w: nat, at: nat, above: nat)
    requires at == Power(k) && above == Power(k + w)
    requires low < at && f < Power(w)
    ensures Or(low + high * above, Shl(f, k)) == low + high * above + f * at
  {
    OrBetween(low, high, f, k, w);
    ShlPower(high, k + w);
    ShlPower(f, k);
  }

  lemma LoopHigh(c: bool, tgt: nat)
    requires tgt < 8
    ensures Or(Or(0x2000000, Shl(Bit(c), 24)), Shl(tgt, 21)) == 0x2000000 + Bit(c) * 0x1000000 + tgt * 0x200000
  {
    Powers();
    OrField(0, 1, Bit(c), 24, 1, 0x1000000, 0x2000000);
    OrField(0, 2 + Bit(c), tgt, 21, 3, 0x200000, 0x1000000);
  }

  lemma LoopLow(high: nat, endVal: u16, ctrAdd: nat)
    requires ctrAdd < 32
    ensures Or(Or(high * 0x200000, Shl(endVal, 5)), ctrAdd) == high * 0x200000 + endVal * 32 + ctrAdd
  {
    Powers();
    OrField(0, high, endVal, 5, 16, 32, 0x200000);
    OrField(0, high * 0x10000 + endVal, ctrAdd, 0, 5, 1, 32);
  }

  lemma EncodeLoop(c: bool, endVal: u16, ctrAdd: nat, tgt: nat)
    requires ctrAdd < 32 && tgt < 8
    ensures Encode(Loop(c, endVal, ctrAdd, tgt))
            == 0x2000000 + Bit(c) * 0x1000000 + tgt * 0x200000 + endVal * 32 + ctrAdd
  {
    LoopHigh(c, tgt);
    LoopLow(16 + 8 * Bit(c) + tgt, endVal, ctrAdd);
  }

  lemma CountC(code: nat, c: bool)
    requires code < 8
    ensures Or(code * 0x10000, Shl(Bit(c), 24)) == code * 0x10000 + Bit(c) * 0x1000000
  {
    Powers();
    OrField(code * 0x10000, 0, Bit(c), 24, 1, 0x1000000, 0x2000000);
  }

  lemma CountH(code: nat, c: bool, h: bool)
    requires code < 8
    ensures Or(code * 0x10000 + Bit(c) * 0x1000000, Shl(Bit(h), 23))
            == code * 0x10000 + Bit(c) * 0x1000000 + Bit(h) * 0x800000
  {
    Powers();
    OrField(code * 0x10000, Bit(c), Bit(h), 23, 1, 0x800000, 0x1000000);
  }

  lemma CountLow(code: nat, high: nat, l: bool, value: u16)
    requires code < 8
    ensures Or(Or(code * 0x10000 + high * 0x800000, Shl(Bit(l), 22)), value)
            == code * 0x10000 + high * 0x800000 + Bit(l) * 0x400000 + value
  {
    Powers();
    OrField(code * 0x10000, high, Bit(l), 22, 1, 0x400000, 0x800000);
    OrField(0, code + high * 128 + Bit(l) * 64, value, 0, 16, 1, 0x10000);
  }

  lemma EncodeCount(kind: Change, c: bool, h: bool, l: bool, value: u16)
    ensures var op := Count(kind, c, h, l, value);
            Encode(op)
            == Code(op) * 0x10000 + Bit(c) * 0x1000000 + Bit(h) * 0x800000 + Bit(l) * 0x400000 + value
  {
    var code := Code(Count(kind, c, h, l, value));
    CountC(code, c);
    CountH(code, c, h);
    CountLow(code, 2 * Bit(c) + Bit(h), l, value);
  }

  lemma EncodeIf(negate: bool, cond: Input, tgt: nat)
    requires cond.sel < 128 && tgt < 8
    ensures var op := If(negate, cond, tgt);
            Encode(op) == Code(op) * 0x10000 + tgt * 0x200000 + cond.sel
  {
    Powers();
    var code := Code(If(negate, cond, tgt));
    OrField(code * 0x10000, 0, tgt, 21, 3, 0x200000, 0x1000000);
    OrField(0, code * 512 + tgt * 0x4000, cond.sel, 0, 7, 1, 128);
  }

  function Target(op: Opcode<Input>): nat
  {
    if op.Count? then 0 else op.tgt
  }

  lemma DecodeLoop(c: bool, endVal: u16, ctrAdd: nat, tgt: nat)
    requires ctrAdd < 32 && tgt < 8
    ensures var o := 0x2000000 + Bit(c) * 0x1000000 + tgt * 0x200000 + endVal * 32 + ctrAdd;
            o < 0x4000000 && Decode(o) == Loop(c, endVal, ctrAdd, tgt)
  {
    var o := 0x2000000 + Bit(c) * 0x1000000 + tgt * 0x200000 + endVal * 32 + ctrAdd;
    var t := tgt + 8 * (2 + Bit(c));
    ModAdd(t * 0x10000 + endVal, 32, ctrAdd);
    ModAdd(t, 0x10000, endVal);
    ModAdd(t, 0x200000, endVal * 32 + ctrAdd);
    ModAdd(2 + Bit(c), 8, tgt);
    ModAdd(2 + Bit(c), 0x1000000, tgt * 0x200000 + endVal * 32 + ctrAdd);
    ModAdd(1, 0x2000000, Bit(c) * 0x1000000 + tgt * 0x200000 + endVal * 32 + ctrAdd);
    ModAdd(1, 2, Bit(c));
    assert o / 0x2000000 == 1 && o / 0x1000000 == 2 + Bit(c) && o / 0x200000 == t;
    assert o / 32 == t * 0x10000 + endVal;
  }

  lemma DecodeCount(kind: Change, c: bool, h: bool, l: bool, value: u16)
    ensures var op: Opcode<Input> := Count(kind, c, h, l, value);
            var o := Code(op) * 0x10000 + Bit(c) * 0x1000000 + Bit(h) * 0x800000 + Bit(l) * 0x400000 + value;
            o < 0x4000000 && Decode(o) == Plain(op)
  {
    var op: Opcode<Input> := Count(kind, c, h, l, value);
    var code := Code(op);
    var o := code * 0x10000 + Bit(c) * 0x1000000 + Bit(h) * 0x800000 + Bit(l) * 0x400000 + value;
    var top := 4 * Bit(c) + 2 * Bit(h) + Bit(l);
    ModAdd(code + 64 * top, 0x10000, value);
    ModAdd(8 * top, 8, code);
    ModAdd(top, 0x400000, code * 0x10000 + value);
    assert o / 0x10000 == code + 64 * top && o % 0x10000 == value && o / 0x400000 == top;
    ModAdd(2 * Bit(c) + Bit(h), 0x800000, Bit(l) * 0x400000 + code * 0x10000 + value);
    assert o / 0x800000 == 2 * Bit(c) + Bit(h);
    ModAdd(Bit(c), 0x1000000, Bit(h) * 0x800000 + Bit(l) * 0x400000 + code * 0x10000 + value);
    assert o / 0x1000000 == Bit(c) && o / 0x2000000 == 0;
  }

  lemma DecodeIf(negate: bool, cond: Input, tgt: nat)
    requires cond.sel < 128 && tgt < 8
    ensures var op := If(negate, cond, tgt);
            var o := Code(op) * 0x10000 + tgt * 0x200000 + cond.sel;
            o < 0x4000000 && Decode(o) == Plain(op)
  {
    var code, sel := Code(If(negate, cond, tgt)), cond.sel;
    var o := code * 0x10000 + tgt * 0x200000 + sel;
    ModAdd(code * 512 + tgt * 0x4000, 128, sel);
    ModAdd(code + 32 * tgt, 0x10000, sel);
    ModAdd(4 * tgt, 8, code);
    ModAdd(tgt, 0x200000, code * 0x10000 + sel);
    assert o % 128 == sel && o / 0x10000 == code + 32 * tgt && o / 0x200000 == tgt && o / 0x2000000 == 0;
  }

  lemma LoopReads(c: bool, endVal: u16, ctrAdd: nat, tgt: nat)
    requires ctrAdd < 32 && tgt < 8
    ensures var o := Encode(Loop(c, endVal, ctrAdd, tgt));
            o < 0x4000000 && Decode(o) == Loop(c, endVal, ctrAdd, tgt)
  {
    EncodeLoop(c, endVal, ctrAdd, tgt);
    DecodeLoop(c, endVal, ctrAdd, tgt);
  }

  lemma CountReads(kind: Change, c: bool, h: bool, l: bool, value: u16)
    ensures var op := Count(kind, c, h, l, value);
            Encode(op) < 0x4000000 && Decode(Encode(op)) == Plain(op)
  {
    EncodeCount(kind, c, h, l, value);
    DecodeCount(kind, c, h, l, value);
  }

  lemma IfReads(negate: bool, cond: Input, tgt: nat)
    requires cond.sel < 128 && tgt < 8
    ensures var op := If(negate, cond, tgt);
            Encode(op) < 0x4000000 && Decode(Encode(op)) == Plain(op)
  {
    EncodeIf(negate, cond, tgt);
    DecodeIf(negate, cond, tgt);
  }

  /** No two fields of an opcode meet: it fits 26 bits and reads back, if its target does. */
  lemma DecodeEncode(op: Opcode<Input>)
    requires OpOk(op) && Target(op) < 8
    ensures Encode(op) < 0x4000000
    ensures Decode(Encode(op)) == Plain(op)
  {
    match op
    case Loop(c, endVal, ctrAdd, tgt) => LoopReads(c, endVal, ctrAdd, tgt);
    case Count(kind, c, h, l, value) => CountReads(kind, c, h, l, value);
    case If(negate, cond, tgt) => IfReads(negate, cond, tgt);
  }

  /** An opcode reads back if and only if its target is one of the eight instructions. */
  lemma DecodeEncodeIff(op: Opcode<Input>)
    requires OpOk(op)
    ensures Decode(Encode(op)) == Plain(op) <==> Target(op) < 8
  {
    if Target(op) < 8 {
      DecodeEncode(op);
    }
  }

  /** A label behind the last of eight instructions has the address 8, which is one bit too
      wide: a jump back with counter A turns into one with counter B. */
  lemma LabelBehindTheEnd(endVal: u16, ctrAdd: nat, tgt: nat)
    requires ctrAdd < 32 && tgt == 8
    ensures Decode(Encode(Loop(false, endVal, ctrAdd, tgt))) == Loop(true, endVal, ctrAdd, 0)
  {
    TargetEight(false, tgt);
    LoopLow(24, endVal, ctrAdd);
    DecodeLoop(true, endVal, ctrAdd, 0);
  }

  lemma TargetEight(c: bool, tgt: nat)
    requires !c && tgt == 8
    ensures Or(Or(0x2000000, Shl(Bit(c), 24)), Shl(tgt, 21)) == 0x3000000
  {
    Powers();
    OrField(0, 1, Bit(c), 24, 1, 0x1000000, 0x2000000);
    var one := tgt / 8;
    ShlPower(tgt, 21);
    ShlPower(one, 24);
    OrField(0, 1, one, 24, 1, 0x1000000, 0x2000000);
  }

  // ---- Instructions ----

  /** Bits moved to or from a FIFO: 0, 8, 16 or 32, encoded as 0 to 3. */
  datatype Amount = Zero | Eight | Sixteen | ThirtyTwo

  function AmountCode(a: Amount): nat
  {
    match a
    case Zero => 0
    case Eight => 1
    case Sixteen => 2
    case ThirtyTwo => 3
  }

  function AmountOf(code: nat): Amount
  {
    if code == 0 then Zero else if code == 1 then Eight else if code == 2 then Sixteen else ThirtyTwo
  }

  /** An instruction as it was parsed. What is missing gets a default. */
  datatype Inst = Inst(op: Option<Opcode<Input>>, mux: map<nat, Input>, read: Option<Amount>, write: Option<Amount>)

  predicate InstOk(inst: Inst)
  {
    && (inst.op.Some? ==> OpOk(inst.op.value))
    && forall i :: i in inst.mux ==> i < 32 && inst.mux[i].sel < 128
  }

  function OpOf(inst: Inst): Opcode<Input>
  {
    if inst.op.Some? then inst.op.value else NOP
  }

  /** All inputs of an instruction; the condition of a branch counts as the 33rd. */
  function Lines(inst: Inst): map<nat, Input>
  {
    if inst.op.Some? && inst.op.value.If? then inst.mux[32 := inst.op.value.cond] else inst.mux
  }

  /** The settings are those that every input of the instruction needs, the condition of a
      branch included. */
  ghost predicate Suits(inst: Inst, s: Settings)
  {
    && (forall i :: i in inst.mux ==> Meets(inst.mux[i].flags, s))
    && (inst.op.Some? && inst.op.value.If? ==> Meets(inst.op.value.cond.flags, s))
  }

  ghost predicate Suitable(inst: Inst)
  {
    exists s :: Suits(inst, s)
  }

  /** A jump of the instruction goes to one of eight instructions. */
  predicate TargetFits(inst: Inst)
  {
    inst.op.Some? && !inst.op.value.Count? ==> inst.op.value.tgt < 8
  }

  /** A fixed low input, the name "l". */
  const LOW: nat := 94

  /** An instruction as the hardware reads it. */
  datatype Decoded = Decoded(mux: seq<nat>, op: Opcode<nat>, read: Amount, write: Amount, settings: Settings)

  /** The bits of an encoded instruction. */
  function MuxBits(sels: seq<nat>): (bits: seq<bool>)
    ensures |bits| == 7 * |sels|
  {
    if sels == [] then [] else MuxBits(sels[..|sels| - 1]) + ToBits(sels[|sels| - 1], 7)
  }

  function Tail(op: nat, read: Amount, write: Amount, s: Settings): (bits: seq<bool>)
    ensures |bits| == 64
  {
    ToBits(op, 26) + ToBits(AmountCode(read), 2) + ToBits(AmountCode(write), 2)
    + ToBits(Bit(s.relAddr), 1) + ToBits(Bit(s.ctrSel), 1) + ToBits(Bit(s.lutSel), 1) + ToBits(0, 31)
  }

  /** Reading the 36 bytes of an instruction. */
  function Read(bits: seq<bool>): Decoded
    requires |bits| == 288
  {
    Decoded(seq(32, i requires 0 <= i < 32 => Value(bits[7 * i..7 * i + 7])),
            Decode(Value(bits[224..250])), AmountOf(Value(bits[250..252])), AmountOf(Value(bits[252..254])),
            Settings(bits[254], bits[255], bits[256]))
  }

  lemma {:induction false} MuxBitsAt(sels: seq<nat>, i: nat)
    requires i < |sels|
    ensures MuxBits(sels)[7 * i..7 * i + 7] == ToBits(sels[i], 7)
  {
    if i < |sels| - 1 {
      MuxBitsAt(sels[..|sels| - 1], i);
      assert MuxBits(sels)[7 * i..7 * i + 7] == MuxBits(sels[..|sels| - 1])[7 * i..7 * i + 7];
    }
  }

  lemma FieldSlices(o: seq<bool>, r: seq<bool>, w: seq<bool>, a: seq<bool>, b: seq<bool>, c: seq<bool>, z: seq<bool>)
    requires |o| == 26 && |r| == |w| == 2 && |a| == |b| == |c| == 1
    ensures var t := o + r + w + a + b + c + z;
            t[..26] == o && t[26..28] == r && t[28..30] == w && t[30] == a[0] && t[31] == b[0] && t[32] == c[0]
  {
  }

  lemma AmountRead(a: Amount)
    ensures AmountOf(Value(ToBits(AmountCode(a), 2))) == a
  {
    assert Power(2) == 4;
    ValueToBits(AmountCode(a), 2);
  }

  lemma BitRead(b: bool)
    ensures ToBits(Bit(b), 1)[0] == b
  {
  }

  lemma TailParts(op: nat, read: Amount, write: Amount, s: Settings)
    ensures var t := Tail(op, read, write, s);
            && (op < 0x4000000 ==> Value(t[..26]) == op)
            && AmountOf(Value(t[26..28])) == read && AmountOf(Value(t[28..30])) == write
            && Settings(t[30], t[31], t[32]) == s
  {
    FieldSlices(ToBits(op, 26), ToBits(AmountCode(read), 2), ToBits(AmountCode(write), 2),
                ToBits(Bit(s.relAddr), 1), ToBits(Bit(s.ctrSel), 1), ToBits(Bit(s.lutSel), 1), ToBits(0, 31));
    Powers();
    if op < 0x4000000 {
      ValueToBits(op, 26);
    }
    AmountRead(read);
    AmountRead(write);
    BitRead(s.relAddr);
    BitRead(s.ctrSel);
    BitRead(s.lutSel);
  }

  lemma ReadMux(sels: seq<nat>, tail: seq<bool>, i: nat)
    requires |sels| == 32 && |tail| == 64 && i < 32 && sels[i] < 128
    ensures Value((MuxBits(sels) + tail)[7 * i..7 * i + 7]) == sels[i]
  {
    Powers();
    MuxBitsAt(sels, i);
    ValueToBits(sels[i], 7);
    assert (MuxBits(sels) + tail)[7 * i..7 * i + 7] == MuxBits(sels)[7 * i..7 * i + 7];
  }

  lemma ReadTail(mux: seq<bool>, t: seq<bool>)
    requires |mux| == 224 && |t| == 64
    ensures var d := Read(mux + t);
            && d.op == Decode(Value(t[..26])) && d.read == AmountOf(Value(t[26..28]))
            && d.write == AmountOf(Value(t[28..30])) && d.settings == Settings(t[30], t[31], t[32])
  {
    var bits := mux + t;
    assert bits[224..250] == t[..26];
    assert bits[250..252] == t[26..28];
    assert bits[252..254] == t[28..30];
  }

  /** All fields but the opcode can be read back, whatever the opcode is. */
  lemma ReadFields(sels: seq<nat>, op: nat, read: Amount, write: Amount, s: Settings)
    requires |sels| == 32 && (forall i :: 0 <= i < 32 ==> sels[i] < 128)
    ensures var d := Read(MuxBits(sels) + Tail(op, read, write, s));
            && d.mux == sels && d.read == read && d.write == write && d.settings == s
            && (op < 0x4000000 ==> d.op == Decode(op))
  {
    var t := Tail(op, read, write, s);
    TailParts(op, read, write, s);
    ReadTail(MuxBits(sels), t);
    var d := Read(MuxBits(sels) + t);
    forall i | 0 <= i < 32
      ensures d.mux[i] == sels[i]
    {
      ReadMux(sels, t, i);
    }
    assert d.mux == sels;
  }

  /** The encoding of an instruction is lossless. */
  lemma ReadBits(sels: seq<nat>, op: Opcode<Input>, read: Amount, write: Amount, s: Settings)
    requires |sels| == 32 && (forall i :: 0 <= i < 32 ==> sels[i] < 128)
    requires OpOk(op) && Target(op) < 8
    ensures Read(MuxBits(sels) + Tail(Encode(op), read, write, s)) == Decoded(sels, Plain(op), read, write, s)
  {
    DecodeEncode(op);
    ReadFields(sels, Encode(op), read, write, s);
  }

  // ---- Whole instructions ----

  /** No two inputs of an instruction clash. */
  ghost predicate Compatible(lines: map<nat, Input>)
  {
    forall i, j :: i in lines && j in lines && i < j ==> !Clash(lines[i].flags, lines[j].flags)
  }

  ghost predicate MeetsAll(lines: map<nat, Input>, s: Settings)
  {
    forall i :: i in lines ==> Meets(lines[i].flags, s)
  }

  /** The checks by pairs refuse an instruction if and only if no settings suit all its
      inputs. */
  lemma CompatibleIff(lines: map<nat, Input>)
    ensures Compatible(lines) <==> exists s :: MeetsAll(lines, s)
  {
    if Compatible(lines) {
      var s := Settings(exists i :: i in lines && lines[i].flags.relAddr == Some(true),
                        exists i :: i in lines && lines[i].flags.ctrSel == Some(true),
                        exists i :: i in lines && lines[i].flags.lutSel == Some(true));
      forall i | i in lines
        ensures Meets(lines[i].flags, s)
      {
        forall j | j in lines
          ensures !Clash(lines[i].flags, lines[j].flags)
        {
          assert i < j ==> !Clash(lines[i].flags, lines[j].flags);
          assert j < i ==> !Clash(lines[j].flags, lines[i].flags);
        }
      }
      assert MeetsAll(lines, s);
    }
  }

  function Settle(flag: Option<bool>, b: bool): bool
  {
    if flag.Some? then flag.value else b
  }

  /** The settings after one more input. */
  function SettleAll(f: Flags, s: Settings): Settings
  {
    Settings(Settle(f.relAddr, s.relAddr), Settle(f.ctrSel, s.ctrSel), Settle(f.lutSel, s.lutSel))
  }

  lemma SettleKeeps(f: Flags, g: Flags, s: Settings)
    requires Meets(f, s) && !Clash(f, g)
    ensures Meets(f, SettleAll(g, s)) && Meets(g, SettleAll(g, s))
  {
  }

  /** What the multiplexers of an instruction select. */
  function Sels(lines: map<nat, Input>): (sels: seq<nat>)
    ensures |sels| == 32
  {
    seq(32, i requires 0 <= i => if i in lines then lines[i].sel else LOW)
  }

  /** The fields of the decoded instruction `d` besides the opcode are what `inst` says: every
      output has its input or the fixed low input 94, an amount that is not given is zero, and
      the settings suit all inputs. */
  ghost predicate EncodesInputs(inst: Inst, d: Decoded)
  {
    && |d.mux| == 32
    && (forall i :: 0 <= i < 32 ==> d.mux[i] == if i in inst.mux then inst.mux[i].sel else 94)
    && Suits(inst, d.settings)
    && d.read == (if inst.read.Some? then inst.read.value else Zero)
    && d.write == (if inst.write.Some? then inst.write.value else Zero)
  }

  /** The opcode is what `inst` says, and without one, it adds 0 to counter A. */
  predicate EncodesOp(inst: Inst, op: Opcode<nat>)
  {
    match inst.op
    case None => op == Count(Add, false, true, true, 0)
    case Some(Loop(c, endVal, ctrAdd, tgt)) => op == Loop(c, endVal, ctrAdd, tgt)
    case Some(Count(kind, c, h, l, value)) => op == Count(kind, c, h, l, value)
    case Some(If(negate, cond, tgt)) => op == If(negate, cond.sel, tgt)
  }

  /** Each input of an encoded instruction selects, in the hardware's terms, the source that
      was written, addressed as it was written, and an output that is not set is low. */
  lemma EncodedNames(inst: Inst, d: Decoded, i: nat, s: Source, rel: bool, width: nat)
    requires InstOk(inst) && EncodesInputs(inst, d) && i < 32
    requires Named(s) && Width(width) && !(s.Lut? && s.index == width)
    requires i in inst.mux ==> ParseInput(s, rel, width) == Some(inst.mux[i])
    ensures d.mux[i] < 128
    ensures i in inst.mux ==>
              Selected(d.mux[i], d.settings, width) == s && Relative(d.mux[i], d.settings) == rel
    ensures i !in inst.mux ==> Selected(d.mux[i], d.settings, width) == Aux(30)
  {
    if i in inst.mux {
      FlagsAreExact(s, rel, width, d.settings);
    }
  }

  /** The same for the condition of a branch. */
  lemma EncodedCondition(inst: Inst, d: Decoded, negate: bool, cond: Input, tgt: nat,
                         s: Source, rel: bool, width: nat)
    requires InstOk(inst) && EncodesInputs(inst, d) && EncodesOp(inst, d.op)
    requires inst.op == Some(If(negate, cond, tgt))
    requires Named(s) && Width(width) && !(s.Lut? && s.index == width)
    requires ParseInput(s, rel, width) == Some(cond)
    ensures d.op.If? && d.op.negate == negate && d.op.tgt == tgt && d.op.cond < 128
    ensures Selected(d.op.cond, d.settings, width) == s && Relative(d.op.cond, d.settings) == rel
  {
    FlagsAreExact(s, rel, width, d.settings);
  }

  /** The inner loop: one input against all later ones. */
  method CheckLater(lines: map<nat, Input>, i: nat) returns (ok: bool)
    requires i in lines && i < 33
    ensures ok <==> forall j :: i < j < 33 && j in lines ==> !Clash(lines[i].flags, lines[j].flags)
  {
    for j := i + 1 to 33
      invariant forall k :: i < k < j && k in lines ==> !Clash(lines[i].flags, lines[k].flags)
    {
      if j in lines && Clash(lines[i].flags, lines[j].flags) {
        return false;
      }
    }
    ok := true;
  }

  /** The inputs before `i` clash with none, and `s` suits them. */
  ghost predicate Checked(lines: map<nat, Input>, i: nat, s: Settings)
  {
    && (forall j, k :: j in lines && k in lines && j < i && j < k ==> !Clash(lines[j].flags, lines[k].flags))
    && (forall j :: j in lines && j < i ==> Meets(lines[j].flags, s))
  }

  lemma CheckedNext(lines: map<nat, Input>, i: nat, s: Settings)
    requires Checked(lines, i, s) && (forall j :: j in lines ==> j < 33)
    requires i in lines ==> forall j :: i < j < 33 && j in lines ==> !Clash(lines[i].flags, lines[j].flags)
    ensures Checked(lines, i + 1, if i in lines then SettleAll(lines[i].flags, s) else s)
  {
    if i in lines {
      forall j | j in lines && j < i
        ensures Meets(lines[j].flags, SettleAll(lines[i].flags, s))
      {
        SettleKeeps(lines[j].flags, lines[i].flags, s);
      }
    }
  }

  lemma MuxBitsNext(sels: seq<nat>, i: nat)
    requires i < |sels|
    ensures MuxBits(sels[..i + 1]) == MuxBits(sels[..i]) + ToBits(sels[i], 7)
  {
    assert sels[..i + 1][..i] == sels[..i];
  }

  /** The loop over the inputs: their multiplexer fields go to the stream. */
  method EncodeMux(lines: map<nat, Input>, bits: BitStream) returns (ok: bool, s: Settings)
    requires forall i :: i in lines ==> i < 33
    requires bits.Valid() && bits.Contents() == []
    modifies bits
    ensures bits.Valid()
    ensures ok <==> Compatible(lines)
    ensures ok ==> MeetsAll(lines, s) && bits.Contents() == MuxBits(Sels(lines))
  {
    s := Settings(false, false, false);
    ghost var sels := Sels(lines);
    for i := 0 to 33
      invariant bits.Valid() && Checked(lines, i, s)
      invariant bits.Contents() == MuxBits(sels[..if i < 32 then i else 32])
    {
      if i in lines {
        var fine := CheckLater(lines, i);
        if !fine {
          return false, s;
        }
      }
      CheckedNext(lines, i, s);
      if i in lines {
        s := SettleAll(lines[i].flags, s);
      }
      if i < 32 {
        MuxBitsNext(sels, i);
        bits.AddBits(if i in lines then lines[i].sel else LOW, 7);
      }
    }
    assert sels[..32] == sels;
    ok := true;
  }

  /** The condition has no multiplexer of its own. */
  lemma SelsOf(inst: Inst)
    requires InstOk(inst)
    ensures Sels(Lines(inst)) == Sels(inst.mux)
    ensures forall i :: 0 <= i < 32 ==> Sels(inst.mux)[i] < 128
    ensures OpOk(OpOf(inst))
  {
  }

  /** One more field; `fields` are the bits since `start`. */
  method AddField(bits: BitStream, val: nat, n: nat, ghost start: seq<bool>, ghost fields: seq<bool>)
    requires bits.Valid() && bits.Contents() == start + fields
    modifies bits
    ensures bits.Valid() && bits.Contents() == start + (fields + ToBits(val, n))
  {
    bits.AddBits(val, n);
  }

  /** The fields behind the multiplexers. */
  method EncodeTail(op: nat, read: Amount, write: Amount, s: Settings, bits: BitStream)
    requires bits.Valid()
    modifies bits
    ensures bits.Valid() && bits.Contents() == old(bits.Contents()) + Tail(op, read, write, s)
  {
    ghost var start := bits.Contents();
    bits.AddBits(op, 26);
    ghost var f := ToBits(op, 26);
    AddField(bits, AmountCode(read), 2, start, f);
    f := f + ToBits(AmountCode(read), 2);
    AddField(bits, AmountCode(write), 2, start, f);
    f := f + ToBits(AmountCode(write), 2);
    AddField(bits, Bit(s.relAddr), 1, start, f);
    f := f + ToBits(Bit(s.relAddr), 1);
    AddField(bits, Bit(s.ctrSel), 1, start, f);
    f := f + ToBits(Bit(s.ctrSel), 1);
    AddField(bits, Bit(s.lutSel), 1, start, f);
    f := f + ToBits(Bit(s.lutSel), 1);
    AddField(bits, 0, 31, start, f);
  }

  /** The bytes of a complete stream. */
  method Finish(bits: BitStream, ghost all: seq<bool>) returns (bytes: seq<byte>)
    requires bits.Valid() && bits.Contents() == all && |all| == 288
    ensures |bytes| == 36 && BitsOf(bytes) == all
  {
    bytes := bits.ToByteArray();
  }

  function ReadOf(inst: Inst): Amount
  {
    if inst.read.Some? then inst.read.value else Zero
  }

  function WriteOf(inst: Inst): Amount
  {
    if inst.write.Some? then inst.write.value else Zero
  }

  /** All bits of an instruction under given settings. */
  function InstBits(inst: Inst, s: Settings): (bits: seq<bool>)
    ensures |bits| == 288
  {
    MuxBits(Sels(inst.mux)) + Tail(Encode(OpOf(inst)), ReadOf(inst), WriteOf(inst), s)
  }

  /** The bytes of an instruction say what it says, its opcode if and only if the target is one
      of eight instructions. */
  ghost predicate Faithful(inst: Inst, bytes: seq<byte>)
  {
    && |bytes| == 36
    && EncodesInputs(inst, Read(BitsOf(bytes)))
    && (EncodesOp(inst, Read(BitsOf(bytes)).op) <==> TargetFits(inst))
  }

  lemma SuitsAll(inst: Inst, s: Settings)
    requires InstOk(inst)
    ensures MeetsAll(Lines(inst), s) <==> Suits(inst, s)
  {
    if MeetsAll(Lines(inst), s) {
      assert forall i :: i in inst.mux ==> i in Lines(inst) && Lines(inst)[i] == inst.mux[i];
      assert inst.op.Some? && inst.op.value.If? ==> 32 in Lines(inst);
    }
  }

  /** An instruction is refused if and only if no settings suit it. */
  lemma SuitableIff(inst: Inst)
    requires InstOk(inst)
    ensures Compatible(Lines(inst)) <==> Suitable(inst)
  {
    CompatibleIff(Lines(inst));
    if s :| MeetsAll(Lines(inst), s) {
      SuitsAll(inst, s);
    }
    if s :| Suits(inst, s) {
      SuitsAll(inst, s);
    }
  }

  lemma InstBitsEncode(inst: Inst, s: Settings)
    requires InstOk(inst) && Suits(inst, s)
    ensures EncodesInputs(inst, Read(InstBits(inst, s)))
    ensures EncodesOp(inst, Read(InstBits(inst, s)).op) <==> TargetFits(inst)
  {
    SelsOf(inst);
    ReadFields(Sels(inst.mux), Encode(OpOf(inst)), ReadOf(inst), WriteOf(inst), s);
    InstOp(inst, s);
  }

  lemma InstOp(inst: Inst, s: Settings)
    requires InstOk(inst)
    ensures EncodesOp(inst, Read(InstBits(inst, s)).op) <==> TargetFits(inst)
  {
    SelsOf(inst);
    if TargetFits(inst) {
      ReadBits(Sels(inst.mux), OpOf(inst), ReadOf(inst), WriteOf(inst), s);
    }
  }

  /** What follows the loop over the inputs. */
  method EncodeRest(inst: Inst, s: Settings, bits: BitStream) returns (bytes: seq<byte>)
    requires bits.Valid() && bits.Contents() == MuxBits(Sels(inst.mux))
    modifies bits
    ensures |bytes| == 36 && BitsOf(bytes) == InstBits(inst, s)
  {
    EncodeTail(Encode(OpOf(inst)), ReadOf(inst), WriteOf(inst), s, bits);
    bytes := Finish(bits, InstBits(inst, s));
  }

  /** The body of the loop over the instructions in insts_to_binary. An instruction is refused
      if and only if no settings suit all of its inputs; otherwise its 36 bytes say what it says,
      the opcode provided that its target is one of eight instructions. */
  method EncodeInst(inst: Inst) returns (r: Option<seq<byte>>)
    requires InstOk(inst)
    ensures r.Some? <==> Suitable(inst)
    ensures r.Some? ==> Faithful(inst, r.value)
  {
    var bits := new BitStream();
    var lines := Lines(inst);
    var ok, s := EncodeMux(lines, bits);
    SuitableIff(inst);
    if !ok {
      return None;
    }
    SelsOf(inst);
    var bytes := EncodeRest(inst, s, bits);
    SuitsAll(inst, s);
    InstBitsEncode(inst, s);
    r := Some(bytes);
  }
}
