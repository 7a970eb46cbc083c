/** The inputs of a BitScrambler instruction: parse_output_range, parse_input,
    check_input_compatible, parse_input_range and the "set" command of tools/bsasm.py. */
module BsInputs {
  import opened Wrappers

  /** What an input of the assembly language names. Memory bits 32 and up, the counters and
      the lookup table share one region of the multiplexer. */
  datatype Source =
    | Mem(index: nat)       // 0 .. 63
    | Counter(index: nat)   // a0 .. a15, b0 .. b15
    | Lut(index: nat)       // l0 .. l31
    | Aux(index: nat)       // bl<=o0 .. h
    | Last(index: nat)      // o0 .. o31

  /** The sources that have a name. */
  predicate Named(s: Source)
  {
    s.index < if s.Mem? then 64 else 32
  }

  predicate Width(width: nat)
  {
    width == 8 || width == 16 || width == 32
  }

  /** Where the lookup table starts in the shared region. */
  function LutStart(width: nat): nat
    requires Width(width)
  {
    if width == 8 then 24 else if width == 16 then 16 else 0
  }

  /** The bits of an instruction that all of its inputs share. */
  datatype Settings = Settings(relAddr: bool, ctrSel: bool, lutSel: bool)

  /** What an input asks of them. */
  datatype Flags = Flags(relAddr: Option<bool>, ctrSel: Option<bool>, lutSel: Option<bool>)

  /** An input: the value for the multiplexer and the flags it needs. */
  datatype Input = Input(sel: nat, flags: Flags)

  predicate Agrees(flag: Option<bool>, b: bool)
  {
    flag.Some? ==> flag.value == b
  }

  predicate Meets(f: Flags, s: Settings)
  {
    Agrees(f.relAddr, s.relAddr) && Agrees(f.ctrSel, s.ctrSel) && Agrees(f.lutSel, s.lutSel)
  }

  /** What the multiplexer selects. */
  function Selected(sel: nat, s: Settings, width: nat): Source
    requires sel < 128 && Width(width)
  {
    if sel < 32 then Mem(sel)
    else if sel < 64 then
      if s.lutSel && sel - 32 >= LutStart(width) then Lut(sel - 32 - LutStart(width))
      else if s.ctrSel then Counter(sel - 32)
      else Mem(sel)
    else if sel < 96 then Aux(sel - 64)
    else Last(sel - 96)
  }

  /** Only the first 64 inputs can be addressed relatively. */
  predicate Relative(sel: nat, s: Settings)
  {
    sel < 64 && s.relAddr
  }

  /** parse_input, for a name that was looked up; `rel` is the suffix "+a". */
  function ParseInput(s: Source, rel: bool, width: nat): Option<Input>
    requires Named(s) && Width(width)
  {
    if s.Lut? && s.index > width then None
    else
      var free := Flags(None, None, None);
      var below := if s.index % 32 >= LutStart(width) then Some(false) else None;
      var input :=
        match s
        case Mem(i) => if i < 32 then Input(i, free) else Input(i, Flags(None, Some(false), below))
        case Counter(i) => Input(i + 32, Flags(None, Some(true), below))
        case Lut(i) => Input(i + 32 + LutStart(width), Flags(None, None, Some(true)))
        case Aux(i) => Input(64 + i, free)
        case Last(i) => Input(96 + i, free);
      if input.sel >= 64 && rel then None
      else if input.sel < 64 then Some(input.(flags := input.flags.(relAddr := Some(rel))))
      else Some(input)
  }

  /** Which inputs are refused. The test for the width of the lookup table lets the index
      pass that equals the width. */
  lemma ParseInputFails(s: Source, rel: bool, width: nat)
    requires Named(s) && Width(width)
    ensures ParseInput(s, rel, width).None? <==>
              || (s.Lut? && s.index > width)
              || (rel && (s.Aux? || s.Last? || (s.Lut? && s.index == width)))
  {
  }

  /** The flags of an accepted input are exact: the settings meet them if and only if the
      multiplexer then selects the named source, addressed as the text says. */
  lemma FlagsAreExact(s: Source, rel: bool, width: nat, settings: Settings)
    requires Named(s) && Width(width) && ParseInput(s, rel, width).Some?
    requires !(s.Lut? && s.index == width)
    ensures var input := ParseInput(s, rel, width).value;
            && input.sel < 128
            && (Meets(input.flags, settings) <==>
                  Selected(input.sel, settings, width) == s && Relative(input.sel, settings) == rel)
  {
  }

  /** An input is translated soundly, whatever the settings, if and only if it does not name
      the bit behind the end of the lookup table. */
  lemma InputSoundIff(s: Source, rel: bool, width: nat)
    requires Named(s) && Width(width) && ParseInput(s, rel, width).Some?
    ensures var input := ParseInput(s, rel, width).value;
            && input.sel < 128
            && ((forall t :: Meets(input.flags, t) ==> Selected(input.sel, t, width) == s)
                <==> !(s.Lut? && s.index == width))
  {
    var input := ParseInput(s, rel, width).value;
    if s.Lut? && s.index == width {
      var t := Settings(false, false, true);
      assert Meets(input.flags, t) && Selected(input.sel, t, width) == Aux(0);
    } else {
      forall t | Meets(input.flags, t)
        ensures Selected(input.sel, t, width) == s
      {
        FlagsAreExact(s, rel, width, t);
      }
    }
  }

  // ---- Compatibility ----

  predicate Differ(a: Option<bool>, b: Option<bool>)
  {
    a.Some? && b.Some? && a != b
  }

  /** check_input_compatible raises an error. */
  predicate Clash(a: Flags, b: Flags)
  {
    Differ(a.relAddr, b.relAddr) || Differ(a.ctrSel, b.ctrSel) || Differ(a.lutSel, b.lutSel)
  }

  /** Two inputs clash if and only if no settings meet both. */
  lemma ClashIff(a: Flags, b: Flags)
    ensures Clash(a, b) <==> !exists s :: Meets(a, s) && Meets(b, s)
  {
    if !Clash(a, b) {
      var s := Settings(Some(true) in {a.relAddr, b.relAddr}, Some(true) in {a.ctrSel, b.ctrSel},
                        Some(true) in {a.lutSel, b.lutSel});
      assert Meets(a, s) && Meets(b, s);
    }
  }

  // ---- Ranges ----

  function Later(a: Option<bool>, b: Option<bool>): Option<bool>
  {
    if b.Some? then b else a
  }

  /** The flags of both ends of a range. */
  function Merge(a: Flags, b: Flags): Flags
  {
    Flags(Later(a.relAddr, b.relAddr), Later(a.ctrSel, b.ctrSel), Later(a.lutSel, b.lutSel))
  }

  /** The numbers from `a` to `b`, which may be smaller. */
  function Range(a: nat, b: nat): (r: seq<nat>)
    ensures |r| == if a <= b then b - a + 1 else a - b + 1
    ensures r[0] == a && r[|r| - 1] == b
    ensures forall k :: 0 <= k < |r| ==> r[k] == if a <= b then a + k else a - k
  {
    if a <= b then seq(b - a + 1, k requires 0 <= k => a + k)
    else seq(a - b + 1, k requires 0 <= k <= a - b => a - k)
  }

  predicate NotSet(flag: Option<bool>)
  {
    flag != Some(true)
  }

  /** A range may go from the first memory register into the second one. */
  predicate IntoMem1(a: Input, b: Input)
  {
    a.sel < 32 && 32 <= b.sel < 64 && NotSet(b.flags.ctrSel) && NotSet(b.flags.lutSel)
  }

  /** parse_input_range, for ends that were resolved. */
  function ParseInputRange(start: Input, end: Input): Option<seq<Input>>
  {
    if !IntoMem1(start, end) && !IntoMem1(end, start) && start.sel / 32 != end.sel / 32 then None
    else if Clash(start.flags, end.flags) then None
    else
      var sels := Range(start.sel, end.sel);
      var flags := Merge(start.flags, end.flags);
      Some(seq(|sels|, k requires 0 <= k < |sels| => Input(sels[k], flags)))
  }

  predicate SameKind(s: Source, t: Source)
  {
    (s.Mem? && t.Mem?) || (s.Counter? && t.Counter?) || (s.Lut? && t.Lut?)
    || (s.Aux? && t.Aux?) || (s.Last? && t.Last?)
  }

  predicate InRange(s: Source, rel: bool, width: nat)
    requires Width(width)
  {
    Named(s) && !(s.Lut? && s.index >= width) && ParseInput(s, rel, width).Some?
  }

  /** The source `k` steps from `s` towards `t`. */
  function Between(s: Source, t: Source, k: nat): Source
    requires SameKind(s, t)
    requires k <= Steps(s, t)
  {
    s.(index := if s.index <= t.index then s.index + k else s.index - k)
  }

  /** How many steps lie between two sources. */
  function Steps(s: Source, t: Source): nat
  {
    if s.index <= t.index then t.index - s.index else s.index - t.index
  }

  /** Where the sources of one kind start among the inputs. */
  function Offset(s: Source, width: nat): nat
    requires Width(width)
  {
    match s
    case Mem(_) => 0
    case Counter(_) => 32
    case Lut(_) => 32 + LutStart(width)
    case Aux(_) => 64
    case Last(_) => 96
  }

  lemma InputAt(s: Source, rel: bool, width: nat)
    requires Width(width) && InRange(s, rel, width)
    ensures var a := ParseInput(s, rel, width).value;
            && a.sel == s.index + Offset(s, width) < 128
            && a.flags.relAddr == (if a.sel < 64 then Some(rel) else None)
            && (a.sel >= 64 ==> !rel)
            && a.flags.ctrSel == (if s.Counter? then Some(true)
                                  else if s.Mem? && a.sel >= 32 then Some(false) else None)
            && a.flags.lutSel == (if s.Lut? then Some(true)
                                  else if 32 <= a.sel < 64 && a.sel - 32 >= LutStart(width) then Some(false)
                                  else None)
  {
  }

  lemma SameBlock(s: Source, a: Input, t: Source, b: Input, width: nat)
    requires Width(width) && Named(s) && Named(t) && SameKind(s, t)
    requires a.sel == s.index + Offset(s, width) && b.sel == t.index + Offset(t, width)
    requires s.Lut? ==> a.sel < 64 && b.sel < 64
    requires s.Mem? ==> NotSet(a.flags.ctrSel) && NotSet(a.flags.lutSel)
    requires t.Mem? ==> NotSet(b.flags.ctrSel) && NotSet(b.flags.lutSel)
    ensures IntoMem1(a, b) || IntoMem1(b, a) || a.sel / 32 == b.sel / 32
  {
    if s.Mem? && (a.sel < 32 <==> b.sel >= 32) {
    } else {
      var q := if a.sel < 32 then 0 else if a.sel < 64 then 1 else if a.sel < 96 then 2 else 3;
      assert 32 * q <= a.sel < 32 * q + 32 && 32 * q <= b.sel < 32 * q + 32;
    }
  }

  lemma RangeAccepted(s: Source, sRel: bool, t: Source, tRel: bool, width: nat)
    requires Width(width) && InRange(s, sRel, width) && InRange(t, tRel, width) && SameKind(s, t)
    ensures var a, b := ParseInput(s, sRel, width).value, ParseInput(t, tRel, width).value;
            && (ParseInputRange(a, b).Some? <==> sRel == tRel)
            && |Range(a.sel, b.sel)| == 1 + Steps(s, t)
  {
    InputAt(s, sRel, width);
    InputAt(t, tRel, width);
    var a, b := ParseInput(s, sRel, width).value, ParseInput(t, tRel, width).value;
    SameBlock(s, a, t, b, width);
    assert a.sel < 64 <==> b.sel < 64;
    assert Clash(a.flags, b.flags) <==> sRel != tRel;
  }

  /** The flags of both ends are enough for every input between them. */
  lemma RangeMember(s: Source, t: Source, rel: bool, width: nat, settings: Settings, k: nat)
    requires Width(width) && InRange(s, rel, width) && InRange(t, rel, width) && SameKind(s, t)
    requires k <= Steps(s, t)
    requires var a, b := ParseInput(s, rel, width).value, ParseInput(t, rel, width).value;
             Meets(a.flags, settings) && Meets(b.flags, settings)
    ensures var a, b := ParseInput(s, rel, width).value, ParseInput(t, rel, width).value;
            var sel := if a.sel <= b.sel then a.sel + k else a.sel - k;
            && 0 <= sel < 128
            && Selected(sel, settings, width) == Between(s, t, k)
            && Relative(sel, settings) == rel
  {
    InputAt(s, rel, width);
    InputAt(t, rel, width);
  }

  lemma MergeMeets(a: Flags, b: Flags, s: Settings)
    requires !Clash(a, b)
    ensures Meets(Merge(a, b), s) <==> Meets(a, s) && Meets(b, s)
  {
  }

  /** A range between two sources of one kind is accepted if and only if both ends are
      addressed alike, and then its inputs are the sources from one end to the other:
      settings that meet its flags select each of them. */
  lemma RangeNames(s: Source, sRel: bool, t: Source, tRel: bool, width: nat, settings: Settings)
    requires Width(width) && InRange(s, sRel, width) && InRange(t, tRel, width) && SameKind(s, t)
    ensures var r := ParseInputRange(ParseInput(s, sRel, width).value, ParseInput(t, tRel, width).value);
            && (r.Some? <==> sRel == tRel)
            && (r.Some? ==>
                  && |r.value| == 1 + Steps(s, t)
                  && forall k :: 0 <= k < |r.value| && Meets(r.value[k].flags, settings) ==>
                       && r.value[k].sel < 128
                       && Selected(r.value[k].sel, settings, width) == Between(s, t, k)
                       && Relative(r.value[k].sel, settings) == sRel)
  {
    RangeAccepted(s, sRel, t, tRel, width);
    var a, b := ParseInput(s, sRel, width).value, ParseInput(t, tRel, width).value;
    var r := ParseInputRange(a, b);
    if r.Some? {
      MergeMeets(a.flags, b.flags, settings);
      forall k | 0 <= k < |r.value| && Meets(r.value[k].flags, settings)
        ensures r.value[k].sel < 128
        ensures Selected(r.value[k].sel, settings, width) == Between(s, t, k)
        ensures Relative(r.value[k].sel, settings) == sRel
      {
        RangeMember(s, t, sRel, width, settings, k);
      }
    }
  }

  /** A source of the shared region below the lookup table, and a bit of the table. */
  predicate Mixed(s: Source, t: Source, width: nat)
    requires Width(width)
  {
    t.Lut? && ((s.Counter? && s.index < LutStart(width)) || (s.Mem? && 32 <= s.index < 32 + LutStart(width)))
  }

  /** Which ranges are accepted, for any two sources: both ends are addressed alike, and they
      are of one kind, or one is a bit of the lookup table and the other one lies below the
      table in the shared region. */
  lemma RangeAcceptedIff(s: Source, sRel: bool, t: Source, tRel: bool, width: nat)
    requires Width(width) && InRange(s, sRel, width) && InRange(t, tRel, width)
    ensures ParseInputRange(ParseInput(s, sRel, width).value, ParseInput(t, tRel, width).value).Some? <==>
            sRel == tRel && (SameKind(s, t) || Mixed(s, t, width) || Mixed(t, s, width))
  {
    if SameKind(s, t) {
      RangeAccepted(s, sRel, t, tRel, width);
    } else {
      InputAt(s, sRel, width);
      InputAt(t, tRel, width);
      DifferentKinds(s, ParseInput(s, sRel, width).value, t, ParseInput(t, tRel, width).value, width);
    }
  }

  /** What the inputs of two sources of different kinds say about them. */
  lemma DifferentKinds(s: Source, a: Input, t: Source, b: Input, width: nat)
    requires Width(width) && Named(s) && Named(t) && !SameKind(s, t)
    requires a.sel == s.index + Offset(s, width) < 128 && b.sel == t.index + Offset(t, width) < 128
    requires s.Lut? ==> a.sel < 64
    requires t.Lut? ==> b.sel < 64
    requires a.flags.ctrSel == NeedsCtr(s) && b.flags.ctrSel == NeedsCtr(t)
    requires a.flags.lutSel == NeedsLut(s, a.sel, width) && b.flags.lutSel == NeedsLut(t, b.sel, width)
    ensures IntoMem1(a, b) || IntoMem1(b, a) || a.sel / 32 == b.sel / 32 ==>
              32 <= a.sel < 64 && 32 <= b.sel < 64
    ensures 32 <= a.sel < 64 && 32 <= b.sel < 64 ==>
              a.sel / 32 == b.sel / 32
              && (Mixed(s, t, width) || Mixed(t, s, width) <==>
                    !Differ(a.flags.ctrSel, b.flags.ctrSel) && !Differ(a.flags.lutSel, b.flags.lutSel))
    ensures Mixed(s, t, width) || Mixed(t, s, width) ==> 32 <= a.sel < 64 && 32 <= b.sel < 64
  {
  }

  function NeedsCtr(s: Source): Option<bool>
  {
    if s.Counter? then Some(true) else if s.Mem? && s.index >= 32 then Some(false) else None
  }

  function NeedsLut(s: Source, sel: nat, width: nat): Option<bool>
    requires Width(width)
  {
    if s.Lut? then Some(true) else if 32 <= sel < 64 && sel - 32 >= LutStart(width) then Some(false) else None
  }

  /** The inputs of a mixed range, in either direction: sources of the first kind up to the
      lookup table, and the bits of the table behind that. */
  lemma MixedNames(s: Source, t: Source, rel: bool, width: nat, settings: Settings, sel: nat)
    requires Width(width) && InRange(s, rel, width) && InRange(t, rel, width) && Mixed(s, t, width)
    requires var a, b := ParseInput(s, rel, width).value, ParseInput(t, rel, width).value;
             a.sel <= sel <= b.sel && Meets(a.flags, settings) && Meets(b.flags, settings)
    ensures sel < 64 && Relative(sel, settings) == rel
    ensures Selected(sel, settings, width)
            == if sel >= 32 + LutStart(width) then Lut(sel - 32 - LutStart(width))
               else s.(index := if s.Mem? then sel else sel - 32)
  {
    InputAt(s, rel, width);
    InputAt(t, rel, width);
  }

  // ---- The "set" command ----

  /** set: each output of the range gets the input at its place, or the only one. An output
      may be set once in an instruction. */
  method SetOutputs(mux: map<nat, Input>, outs: seq<nat>, ins: seq<Input>) returns (r: Option<map<nat, Input>>)
    requires ins != []
    requires forall i, j :: 0 <= i < j < |outs| ==> outs[i] != outs[j]
    ensures r.Some? <==> (|ins| == 1 || |ins| == |outs|) && forall i :: 0 <= i < |outs| ==> outs[i] !in mux
    ensures r.Some? ==> r.value.Keys == mux.Keys + set i | 0 <= i < |outs| :: outs[i]
    ensures r.Some? ==> forall k :: k in mux ==> r.value[k] == mux[k]
    ensures r.Some? ==> forall i :: 0 <= i < |outs| ==> r.value[outs[i]] == ins[if |ins| == 1 then 0 else i]
  {
    if |ins| != 1 && |ins| != |outs| {
      return None;
    }
    var result := mux;
    for i := 0 to |outs|
      invariant forall j :: 0 <= j < i ==> outs[j] !in mux
      invariant result.Keys == mux.Keys + set j | 0 <= j < i :: outs[j]
      invariant forall k :: k in mux ==> result[k] == mux[k]
      invariant forall j :: 0 <= j < i ==> result[outs[j]] == ins[if |ins| == 1 then 0 else j]
    {
      if outs[i] in result {
        return None;
      }
      result := result[outs[i] := ins[if |ins| == 1 then 0 else i]];
    }
    r := Some(result);
  }
}
