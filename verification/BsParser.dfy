/** The parser of the BitScrambler assembler, bsasm_parse of tools/bsasm.py. */
module BsParser {
  import opened Wrappers

  /** An element of a source: a label, a meta-instruction or a part of an instruction bundle. */
  datatype Element = Element(text: string, more: bool, isLabel: bool)

  /** The states ST_WH_PRE, ST_ELEMENT, ST_WH_IN_EL and ST_AFTER_COMMA. */
  datatype Mode = Before | Inside | Gap | AfterComma

  datatype Failure = EmptySubinstruction | StrayComma | StrayColon

  datatype Parsed<T> = Ok(value: T) | Err(error: Failure)

  // ---- What an element looks like ----

  predicate Blank(c: char)
  {
    c == ' ' || c == '\t'
  }

  predicate LineEnd(c: char)
  {
    c == '\n' || c == '\r'
  }

  /** A character that elements are made of. */
  predicate Ordinary(c: char)
  {
    !Blank(c) && !LineEnd(c) && c != '#' && c != ',' && c != ':'
  }

  /** Words of ordinary characters with single spaces between them. */
  ghost predicate Clean(text: string)
  {
    && text != [] && Ordinary(text[0]) && Ordinary(text[|text| - 1])
    && (forall i :: 0 <= i < |text| ==> text[i] == ' ' || Ordinary(text[i]))
    && (forall i :: 0 < i < |text| && text[i] == ' ' ==> text[i - 1] != ' ')
  }

  /** A label may follow whole bundles only. */
  predicate AtStart(done: seq<Element>)
  {
    done == [] || !done[|done| - 1].more
  }

  /** A label stands alone and not inside a bundle. */
  ghost predicate Allowed(before: seq<Element>, e: Element)
  {
    Clean(e.text) && (e.isLabel ==> !e.more && AtStart(before))
  }

  /** Elements that a source can have. */
  ghost predicate Canonical(es: seq<Element>)
  {
    es == [] || (Canonical(es[..|es| - 1]) && Allowed(es[..|es| - 1], es[|es| - 1]))
  }

  lemma CanonicalNext(es: seq<Element>, e: Element)
    requires Canonical(es) && Allowed(es, e)
    ensures Canonical(es + [e])
  {
    assert (es + [e])[..|es|] == es;
  }

  // ---- The state machine ----

  /** `text` is the element that was started; it is empty outside elements. */
  datatype State = State(mode: Mode, comment: bool, done: seq<Element>, text: string)

  const START := State(Before, false, [], [])

  function Finish(st: State, more: bool, isLabel: bool, mode: Mode): State
  {
    State(mode, st.comment, st.done + [Element(st.text, more, isLabel)], [])
  }

  predicate Open(mode: Mode)
  {
    mode == Inside || mode == Gap
  }

  function NewLine(st: State): State
  {
    if Open(st.mode) then Finish(st, false, false, Before) else st.(mode := Before)
  }

  function Next(st: State, c: char): Parsed<State>
  {
    if st.comment && c != '\n' then Ok(st)
    else if c == '#' then Ok(st.(comment := true))
    else if Blank(c) then Ok(if st.mode == Inside then st.(mode := Gap) else st)
    else if LineEnd(c) then Ok(NewLine(st.(comment := false)))
    else if c == ',' then
      match st.mode
      case Before => Err(StrayComma)
      case AfterComma => Err(EmptySubinstruction)
      case _ => Ok(Finish(st, true, false, AfterComma))
    else if c == ':' then
      if st.mode == Inside && AtStart(st.done) then Ok(Finish(st, false, true, Before)) else Err(StrayColon)
    else
      Ok(st.(mode := Inside, text := st.text + if st.mode == Gap then [' ', c] else [c]))
  }

  function Run(st: State, s: string): Parsed<State>
    decreases s
  {
    if s == [] then Ok(st)
    else
      var next := Next(st, s[0]);
      if next.Ok? then Run(next.value, s[1..]) else next
  }

  /** The elements of a source. The parser adds a line end of its own. */
  function Elements(src: string): Parsed<seq<Element>>
  {
    var r := Run(START, src + "\n");
    if r.Ok? then Ok(r.value.done) else Err(r.error)
  }

  /** What every step keeps: an element is open exactly inside of one, and texts are clean. */
  ghost predicate Inv(st: State)
  {
    && (if Open(st.mode) then Clean(st.text) else st.text == [])
    && Canonical(st.done)
  }

  lemma InvNext(st: State, c: char)
    requires Inv(st)
    ensures var next := Next(st, c);
            next.Ok? ==> Inv(next.value)
  {
    if st.comment && c != '\n' {
    } else if LineEnd(c) && Open(st.mode) {
      InvFinish(st.(comment := false), false, false, Before);
    } else if c == ',' && Open(st.mode) {
      InvFinish(st, true, false, AfterComma);
    } else if c == ':' && st.mode == Inside && AtStart(st.done) {
      InvFinish(st, false, true, Before);
    } else if Ordinary(c) {
      CleanNext(st.text, st.mode == Gap, c);
    }
  }

  lemma InvFinish(st: State, more: bool, isLabel: bool, mode: Mode)
    requires Inv(st) && Open(st.mode) && !Open(mode) && (isLabel ==> !more && AtStart(st.done))
    ensures Inv(Finish(st, more, isLabel, mode))
  {
    CanonicalNext(st.done, Element(st.text, more, isLabel));
  }

  lemma CleanNext(text: string, gap: bool, c: char)
    requires Ordinary(c) && (gap ==> text != []) && (text != [] ==> Clean(text))
    ensures Clean(text + if gap then [' ', c] else [c])
  {
  }

  lemma {:induction false} RunSplit(st: State, a: string, b: string)
    ensures Run(st, a + b) == var r := Run(st, a); if r.Ok? then Run(r.value, b) else r
    decreases a
  {
    if a == [] {
      assert a + b == b;
    } else {
      assert (a + b)[0] == a[0] && (a + b)[1..] == a[1..] + b;
      var next := Next(st, a[0]);
      if next.Ok? {
        RunSplit(next.value, a[1..], b);
      }
    }
  }

  lemma RunOne(st: State, c: char)
    ensures Run(st, [c]) == Next(st, c)
  {
    var next := Next(st, c);
    assert [c][1..] == [];
    if next.Ok? {
      assert Run(next.value, []) == Ok(next.value);
    }
  }

  lemma {:induction false} InvRun(st: State, s: string)
    requires Inv(st)
    ensures var r := Run(st, s);
            r.Ok? ==> Inv(r.value)
    decreases s
  {
    if s != [] {
      InvNext(st, s[0]);
      if Next(st, s[0]).Ok? {
        InvRun(Next(st, s[0]).value, s[1..]);
      }
    }
  }

  /** Every accepted source gives canonical elements and leaves none open. */
  lemma ElementsCanonical(src: string)
    ensures var r := Run(START, src + "\n");
            r.Ok? ==> !Open(r.value.mode) && r.value.text == [] && Canonical(r.value.done)
  {
    InvRun(START, src + "\n");
    RunSplit(START, src, "\n");
    var r := Run(START, src);
    if r.Ok? {
      InvRun(START, src);
      RunOne(r.value, '\n');
    }
  }

  // ---- Printing ----

  /** The shortest source of an element. */
  function PrintElement(e: Element): string
  {
    e.text + (if e.isLabel then ":" else if e.more then "," else "\n")
  }

  function Print(es: seq<Element>): string
  {
    if es == [] then [] else Print(es[..|es| - 1]) + PrintElement(es[|es| - 1])
  }

  /** Reading the rest of a text of which `text[..k]` was read. */
  lemma {:induction false} RunText(st: State, text: string, k: nat)
    requires Clean(text) && 0 < k <= |text| && !st.comment
    requires if text[k - 1] == ' ' then st.mode == Gap && st.text == text[..k - 1]
             else st.mode == Inside && st.text == text[..k]
    ensures Run(st, text[k..]) == Ok(st.(mode := Inside, text := text))
    decreases |text| - k
  {
    if k < |text| {
      var next := Next(st, text[k]);
      assert text[..k + 1] == text[..k] + [text[k]];
      if text[k - 1] == ' ' {
        assert text[..k + 1] == text[..k - 1] + [' ', text[k]];
      }
      RunText(next.value, text, k + 1);
      assert text[k..][1..] == text[k + 1..];
    } else {
      assert text[..k] == text;
    }
  }

  lemma RunElement(done: seq<Element>, mode: Mode, e: Element)
    requires !Open(mode) && Clean(e.text)
    requires e.isLabel ==> !e.more && AtStart(done)
    ensures Run(State(mode, false, done, []), PrintElement(e))
            == Ok(State(if e.more then AfterComma else Before, false, done + [e], []))
  {
    var st := State(mode, false, done, []);
    var first := Next(st, e.text[0]).value;
    RunText(first, e.text, 1);
    var end := if e.isLabel then ':' else if e.more then ',' else '\n';
    RunSplit(st, e.text, [end]);
    RunOne(first.(mode := Inside, text := e.text), end);
    assert PrintElement(e) == e.text + [end];
  }

  lemma {:induction false} RunPrint(es: seq<Element>)
    requires Canonical(es)
    ensures var r := Run(START, Print(es));
            r == Ok(State(if es != [] && es[|es| - 1].more then AfterComma else Before, false, es, []))
  {
    if es == [] {
    } else {
      var front, last := es[..|es| - 1], es[|es| - 1];
      RunPrint(front);
      var st := Run(START, Print(front)).value;
      RunSplit(START, Print(front), PrintElement(last));
      RunElement(front, st.mode, last);
      assert st == State(st.mode, false, front, []);
      assert front + [last] == es;
    }
  }

  /** Printing canonical elements and parsing them again gives the same elements. */
  lemma ParsePrint(es: seq<Element>)
    requires Canonical(es)
    ensures Elements(Print(es)) == Ok(es)
  {
    RunPrint(es);
    RunSplit(START, Print(es), "\n");
    RunOne(Run(START, Print(es)).value, '\n');
  }

  /** The printer reaches every result of the parser: parsing, printing and parsing again
      changes nothing. */
  lemma ParseNormal(src: string)
    requires Elements(src).Ok?
    ensures Elements(Print(Elements(src).value)) == Elements(src)
  {
    ElementsCanonical(src);
    ParsePrint(Elements(src).value);
  }

  // ---- Layout ----

  /** Two texts that the parser does not tell apart, wherever they are. */
  ghost predicate Alike(x: string, y: string)
  {
    forall st :: Run(st, x) == Run(st, y)
  }

  /** Sources that differ in such texts only have the same elements, or the same error. */
  lemma AlikeElements(a: string, x: string, y: string, b: string)
    requires Alike(x, y)
    ensures Elements(a + x + b) == Elements(a + y + b)
  {
    RunThree(a, x, b);
    RunThree(a, y, b);
  }

  lemma RunThree(a: string, x: string, b: string)
    ensures Run(START, (a + x + b) + "\n")
            == var r := Run(START, a);
               if r.Err? then r
               else var t := Run(r.value, x);
                    if t.Err? then t else Run(t.value, b + "\n")
  {
    assert (a + x + b) + "\n" == a + (x + (b + "\n"));
    RunSplit(START, a, x + (b + "\n"));
    var r := Run(START, a);
    if r.Ok? {
      RunSplit(r.value, x, b + "\n");
    }
  }

  lemma RunTwo(st: State, c: char, d: char)
    ensures Run(st, [c, d]) == var next := Next(st, c); if next.Ok? then Next(next.value, d) else next
  {
    RunSplit(st, [c], [d]);
    RunOne(st, c);
    if Next(st, c).Ok? {
      RunOne(Next(st, c).value, d);
    }
    assert [c] + [d] == [c, d];
  }

  lemma {:induction false} RunComment(st: State, c: string)
    requires st.comment && '\n' !in c
    ensures Run(st, c) == Ok(st)
    decreases c
  {
    if c != [] {
      RunComment(st, c[1..]);
    }
  }

  /** A comment means nothing: up to the end of its line it could be left out. */
  lemma CommentsIgnored(a: string, c: string, b: string)
    requires '\n' !in c
    ensures Elements(a + ("#" + c + "\n") + b) == Elements(a + "\n" + b)
  {
    forall st
      ensures Run(st, "#" + c + "\n") == Run(st, "\n")
    {
      RunSplit(st, "#" + c, "\n");
      RunSplit(st, "#", c);
      RunOne(st, '#');
      RunComment(st.(comment := true), c);
      RunOne(st, '\n');
      RunOne(st.(comment := true), '\n');
    }
    AlikeElements(a, "#" + c + "\n", "\n", b);
  }

  /** Any blank is a space, and several of them are one. Blanks and empty lines before and
      behind the end of a line mean nothing, nor does a carriage return before it, nor do blanks
      before and behind a comma. */
  lemma LayoutIgnored(a: string, c: char, d: char, b: string)
    requires Blank(c) && Blank(d)
    ensures Elements(a + [c] + b) == Elements(a + " " + b)
    ensures Elements(a + [c, d] + b) == Elements(a + " " + b)
    ensures Elements(a + [c, '\n'] + b) == Elements(a + "\n" + b)
    ensures Elements(a + ['\n', c] + b) == Elements(a + "\n" + b)
    ensures Elements(a + "\n\n" + b) == Elements(a + "\n" + b)
    ensures Elements(a + "\r\n" + b) == Elements(a + "\n" + b)
    ensures Elements(a + [c, ','] + b) == Elements(a + "," + b)
    ensures Elements(a + [',', c] + b) == Elements(a + "," + b)
  {
    forall st
      ensures Run(st, [c]) == Run(st, " ")
    {
      RunOne(st, c);
      RunOne(st, ' ');
    }
    AlikeElements(a, [c], " ", b);
    AlikePair(c, d, ' ');
    AlikeElements(a, [c, d], " ", b);
    AlikePair(c, '\n', '\n');
    AlikeElements(a, [c, '\n'], "\n", b);
    AlikePair('\n', c, '\n');
    AlikeElements(a, ['\n', c], "\n", b);
    AlikePair('\n', '\n', '\n');
    AlikeElements(a, "\n\n", "\n", b);
    AlikePair('\r', '\n', '\n');
    AlikeElements(a, "\r\n", "\n", b);
    AlikePair(c, ',', ',');
    AlikeElements(a, [c, ','], ",", b);
    AlikePair(',', c, ',');
    AlikeElements(a, [',', c], ",", b);
  }

  /** Pairs of characters that are like a single one. */
  lemma AlikePair(c: char, d: char, e: char)
    requires || (Blank(c) && Blank(d) && e == ' ')
             || (Blank(c) && d == e && e in {'\n', ','})
             || (c == e && Blank(d) && e in {'\n', ','})
             || (c in {'\n', '\r'} && d == e == '\n')
    ensures Alike([c, d], [e])
  {
    forall st
      ensures Run(st, [c, d]) == Run(st, [e])
    {
      RunTwo(st, c, d);
      RunOne(st, e);
    }
  }

  // ---- Errors ----

  /** A comma has a part of an instruction before it, and a colon a label, which stands
      directly before it and not inside a bundle. Nothing that follows makes up for it. */
  lemma Refusals(es: seq<Element>, text: string, b: string)
    requires Canonical(es) && Clean(text)
    ensures var inside := es != [] && es[|es| - 1].more;
            && Elements(Print(es) + "," + b) == Err(if inside then EmptySubinstruction else StrayComma)
            && Elements(Print(es) + ":" + b) == Err(StrayColon)
            && Elements(Print(es) + (text + " :") + b) == Err(StrayColon)
            && (inside ==> Elements(Print(es) + (text + ":") + b) == Err(StrayColon))
  {
    RunPrint(es);
    var st := Run(START, Print(es)).value;
    RunOne(st, ',');
    RefusedAt(Print(es), ",", b);
    RunOne(st, ':');
    RefusedAt(Print(es), ":", b);
    RefusedColon(st, text);
    RefusedAt(Print(es), text + " :", b);
    if es != [] && es[|es| - 1].more {
      RefusedAt(Print(es), text + ":", b);
    }
  }

  lemma RefusedAt(a: string, x: string, b: string)
    requires Run(START, a).Ok? && Run(Run(START, a).value, x).Err?
    ensures Elements(a + x + b) == Err(Run(Run(START, a).value, x).error)
  {
    RunThree(a, x, b);
  }

  lemma RefusedColon(st: State, text: string)
    requires !Open(st.mode) && !st.comment && st.text == [] && Clean(text)
    ensures Run(st, text + " :") == Err(StrayColon)
    ensures !AtStart(st.done) ==> Run(st, text + ":") == Err(StrayColon)
  {
    var first := Next(st, text[0]).value;
    RunText(first, text, 1);
    var open := first.(mode := Inside, text := text);
    assert Run(st, text) == Ok(open);
    RunSplit(st, text, " :");
    RunTwo(open, ' ', ':');
    RunSplit(st, text, ":");
    RunOne(open, ':');
  }

  // ---- The parser itself ----

  /** What the loop of the parser knows, as a state of the machine. */
  ghost predicate Matches(st: State, mode: Mode, comment: bool, elements: seq<Element>, curr: Option<Element>)
  {
    && st == State(mode, comment, elements, if curr.Some? then curr.value.text else [])
    && (curr.Some? <==> Open(mode))
    && (curr.Some? ==> !curr.value.more && !curr.value.isLabel && curr.value.text != [])
  }

  /** bsasm_parse. The errors that the source calls internal are the two assertions. */
  method Parse(src: string) returns (r: Parsed<seq<Element>>)
    ensures r == Elements(src)
    ensures r.Ok? ==> Canonical(r.value)
  {
    var text := src + "\n";
    var mode, comment := Before, false;
    var elements: seq<Element> := [];
    var curr: Option<Element> := None;
    ghost var st := START;
    for i := 0 to |text|
      invariant Matches(st, mode, comment, elements, curr)
      invariant Run(START, text) == Run(st, text[i..])
    {
      assert text[i..][1..] == text[i + 1..];
      var handled := Handle(text[i], mode, comment, elements, curr, st);
      if handled.Err? {
        return Err(handled.error);
      }
      mode, comment, elements, curr := handled.value.0, handled.value.1, handled.value.2, handled.value.3;
      st := Next(st, text[i]).value;
    }
    ElementsCanonical(src);
    r := Ok(elements);
  }

  /** The body of the loop: one character. */
  method Handle(c: char, mode0: Mode, comment0: bool, elements0: seq<Element>, curr0: Option<Element>, ghost st: State)
    returns (r: Parsed<(Mode, bool, seq<Element>, Option<Element>)>)
    requires Matches(st, mode0, comment0, elements0, curr0)
    ensures var next := Next(st, c);
            && (r.Err? <==> next.Err?)
            && (r.Err? ==> r.error == next.error)
            && (r.Ok? ==> Matches(next.value, r.value.0, r.value.1, r.value.2, r.value.3))
  {
    var mode, comment, elements, curr := mode0, comment0, elements0, curr0;
    var starts, finishes := false, false;
    if comment && c == '\n' {
      comment := false;
    }
    if comment {
    } else if c == '#' {
      comment := true;
    } else if Blank(c) {
      if mode == Inside {
        mode := Gap;
      }
    } else if LineEnd(c) {
      if mode == Inside || mode == Gap {
        finishes, mode := true, Before;
      } else if mode == AfterComma {
        mode := Before;
      }
    } else if c == ',' {
      if mode == Inside || mode == Gap {
        curr := Some(curr.value.(more := true));
        finishes, mode := true, AfterComma;
      } else if mode == AfterComma {
        return Err(EmptySubinstruction);
      } else {
        return Err(StrayComma);
      }
    } else if c == ':' {
      if mode == Inside {
        if |elements| == 0 || !elements[|elements| - 1].more {
          curr := Some(curr.value.(isLabel := true));
          finishes, mode := true, Before;
        } else {
          return Err(StrayColon);
        }
      } else {
        return Err(StrayColon);
      }
    } else {
      if mode == Inside {
        curr := Some(curr.value.(text := curr.value.text + [c]));
      } else if mode == Before || mode == AfterComma {
        starts, mode := true, Inside;
      } else {
        curr := Some(curr.value.(text := curr.value.text + [' ', c]));
        mode := Inside;
      }
    }
    if starts {
      assert curr.None?;
      curr := Some(Element([c], false, false));
    }
    if finishes {
      assert curr.Some?;
      elements, curr := elements + [curr.value], None;
    }
    r := Ok((mode, comment, elements, curr));
  }

  // ---- Labels ----

  /** A letter in lower case. */
  function Lower(c: char): char
  {
    if 'A' <= c <= 'Z' then c - 'A' + 'a' else c
  }

  predicate IsMeta(text: string)
  {
    |text| >= 4 && Lower(text[3]) == text[3] == ' '
    && ((Lower(text[0]) == 'c' && Lower(text[1]) == 'f' && Lower(text[2]) == 'g')
        || (Lower(text[0]) == 'l' && Lower(text[1]) == 'u' && Lower(text[2]) == 't'))
  }

  /** Such an element starts with "cfg " or "lut ", in capital letters or not. */
  lemma IsMetaIff(text: string)
    ensures IsMeta(text) <==> |text| >= 4 && LowerAll(text[..4]) in {"cfg ", "lut "}
  {
    if |text| >= 4 {
      LowerFour(text[0], text[1], text[2], text[3]);
      assert text[..4] == [text[0], text[1], text[2], text[3]];
    }
  }

  lemma LowerFour(a: char, b: char, c: char, d: char)
    ensures LowerAll([a, b, c, d]) == [Lower(a), Lower(b), Lower(c), Lower(d)]
  {
    LowerStep(a, [b, c, d]);
    LowerStep(b, [c, d]);
    LowerStep(c, [d]);
    LowerStep(d, []);
    assert [a] + [b, c, d] == [a, b, c, d] && [b] + [c, d] == [b, c, d] && [c] + [d] == [c, d] && [d] + [] == [d];
  }

  lemma LowerStep(c: char, rest: string)
    ensures LowerAll([c] + rest) == [Lower(c)] + LowerAll(rest)
  {
    assert ([c] + rest)[1..] == rest;
  }

  // ---- References to labels ----

  function LowerAll(text: string): (low: string)
    ensures |low| == |text|
  {
    if text == [] then [] else [Lower(text[0])] + LowerAll(text[1..])
  }

  /** The words of a text, as `split(' ')` gives them. */
  function WordsOf(text: string): (ws: seq<string>)
    ensures |ws| >= 1
  {
    if text == [] then [[]]
    else
      var rest := WordsOf(text[1..]);
      if text[0] == ' ' then [[]] + rest else [[text[0]] + rest[0]] + rest[1..]
  }

  /** A name without spaces and capital letters. */
  predicate Referable(t: string)
  {
    t == [] || (t[0] != ' ' && Lower(t[0]) == t[0] && Referable(t[1..]))
  }

  lemma {:induction false} WordsReferable(text: string)
    ensures forall k :: 0 <= k < |WordsOf(LowerAll(text))| ==> Referable(WordsOf(LowerAll(text))[k])
  {
    if text != [] {
      WordsReferable(text[1..]);
      var low := LowerAll(text);
      assert low[1..] == LowerAll(text[1..]) && low[0] == Lower(text[0]);
      var ws, rest := WordsOf(low), WordsOf(low[1..]);
      forall k | 0 <= k < |ws|
        ensures Referable(ws[k])
      {
        if low[0] == ' ' {
          assert k > 0 ==> ws[k] == rest[k - 1];
        } else if k == 0 {
          assert ws[0] == [low[0]] + rest[0] && ws[0][1..] == rest[0];
        } else {
          assert ws[k] == rest[k];
        }
      }
    }
  }

  lemma {:induction false} OneWord(t: string)
    requires Referable(t)
    ensures LowerAll(t) == t && WordsOf(t) == [t]
  {
    if t != [] {
      OneWord(t[1..]);
    }
  }

  lemma {:induction false} WordBehind(a: string, t: string)
    requires Referable(a) && Referable(t)
    ensures LowerAll(a + " " + t) == a + " " + t && WordsOf(a + " " + t) == [a, t]
  {
    var text := a + " " + t;
    if a == [] {
      OneWord(t);
      assert text == " " + t && text[1..] == t;
    } else {
      assert text[1..] == a[1..] + " " + t && text[0] == a[0];
      WordBehind(a[1..], t);
      assert [a[0]] + a[1..] == a;
    }
  }

  lemma JumpClean(t: string)
    requires Clean(t)
    ensures Clean("jmp" + " " + t)
  {
    var text := "jmp" + " " + t;
    assert text[|text| - 1] == t[|t| - 1];
    forall i | 0 <= i < |text|
      ensures text[i] == ' ' || Ordinary(text[i])
      ensures i > 0 && text[i] == ' ' ==> text[i - 1] != ' '
    {
      if i > 4 {
        assert text[i] == t[i - 4] && text[i - 1] == t[i - 5];
      }
    }
  }

  /** The second pass looks up the words of a text in lower case, while the first one stores
      labels as they are written. So some instruction can refer to a label if and only if its
      name has no capital letters and no spaces. */
  lemma LabelReferableIff(t: string)
    requires Clean(t)
    ensures (exists text: string, k ::
               Clean(text) && 0 <= k < |WordsOf(LowerAll(text))| && WordsOf(LowerAll(text))[k] == t)
            <==> Referable(t)
  {
    if Referable(t) {
      JumpClean(t);
      WordBehind("jmp", t);
      assert WordsOf(LowerAll("jmp" + " " + t))[1] == t;
    } else {
      forall text: string, k | 0 <= k < |WordsOf(LowerAll(text))|
        ensures WordsOf(LowerAll(text))[k] != t
      {
        WordsReferable(text);
      }
    }
  }

  // ---- Labels and instructions ----

  /** The element `k` belongs to a meta-instruction: the bundle it is in starts like one. */
  predicate Meta(es: seq<Element>, k: nat)
    requires k < |es|
  {
    if k == 0 || !es[k - 1].more then IsMeta(es[k].text) else Meta(es, k - 1)
  }

  /** The element `k` ends an instruction. */
  predicate Ends(es: seq<Element>, k: nat)
    requires k < |es|
  {
    !es[k].more && !es[k].isLabel && !Meta(es, k)
  }

  /** The number of instructions that end before the element `k`. */
  function Count(es: seq<Element>, k: nat): nat
    requires k <= |es|
  {
    if k == 0 then 0 else Count(es, k - 1) + if Ends(es, k - 1) then 1 else 0
  }

  /** The parts of the bundle that the element `k` belongs to, up to that element. */
  function Bundle(es: seq<Element>, k: nat): seq<string>
    requires k < |es|
  {
    (if k == 0 || !es[k - 1].more then [] else Bundle(es, k - 1)) + [es[k].text]
  }

  /** The instructions that end before the element `k`. */
  function Insts(es: seq<Element>, k: nat): (insts: seq<seq<string>>)
    requires k <= |es|
    ensures |insts| == Count(es, k)
  {
    if k == 0 then [] else Insts(es, k - 1) + if Ends(es, k - 1) then [Bundle(es, k - 1)] else []
  }

  /** The element `p` defines the label `t`. */
  predicate Defines(es: seq<Element>, p: nat, t: string)
    requires p < |es|
  {
    es[p].isLabel && !Meta(es, p) && es[p].text == t
  }

  /** The labels defined before the element `k`. */
  function Labels(es: seq<Element>, k: nat): map<string, nat>
    requires k <= |es|
  {
    if k == 0 then map[]
    else if Defines(es, k - 1, es[k - 1].text) then Labels(es, k - 1)[es[k - 1].text := Count(es, k - 1)]
    else Labels(es, k - 1)
  }

  /** The element `p` is the last of the first `k` that defines the label `t`. */
  predicate DefinesLast(es: seq<Element>, k: nat, p: nat, t: string)
    requires p < k <= |es|
  {
    Defines(es, p, t) && forall q :: p < q < k ==> !Defines(es, q, t)
  }

  /** A label is known if and only if it is defined, and its last definition counts. */
  lemma {:induction false} LabelsDefined(es: seq<Element>, k: nat, t: string)
    requires k <= |es|
    ensures t in Labels(es, k) <==> exists p :: 0 <= p < k && Defines(es, p, t)
    ensures t in Labels(es, k) ==> exists p :: 0 <= p < k && DefinesLast(es, k, p, t)
    ensures forall p :: 0 <= p < k && DefinesLast(es, k, p, t) ==>
              t in Labels(es, k) && Labels(es, k)[t] == Count(es, p)
  {
    if k > 0 {
      LabelsDefined(es, k - 1, t);
      if Defines(es, k - 1, t) {
        assert DefinesLast(es, k, k - 1, t);
      } else {
        if t in Labels(es, k) {
          var p :| 0 <= p < k - 1 && DefinesLast(es, k - 1, p, t);
          assert DefinesLast(es, k, p, t);
        }
        assert forall p :: 0 <= p < k && DefinesLast(es, k, p, t) ==> p < k - 1 && DefinesLast(es, k - 1, p, t);
      }
    }
  }

  lemma {:induction false} CanonicalAt(es: seq<Element>, i: nat)
    requires Canonical(es) && i < |es|
    ensures Allowed(es[..i], es[i])
  {
    if i < |es| - 1 {
      CanonicalAt(es[..|es| - 1], i);
      assert es[..|es| - 1][..i] == es[..i];
    }
  }

  /** Pass 1a of bsasm_assemble: labels get their addresses and meta-instructions are marked. */
  method FindLabels(es: seq<Element>) returns (labels: map<string, nat>, meta: seq<bool>)
    ensures labels == Labels(es, |es|)
    ensures |meta| == |es| && forall k :: 0 <= k < |es| ==> meta[k] == Meta(es, k)
  {
    var ip := 0;
    labels, meta := map[], [];
    var instIsMeta, instStart := false, true;
    for k := 0 to |es|
      invariant ip == Count(es, k)
      invariant |meta| == k && forall j :: 0 <= j < k ==> meta[j] == Meta(es, j)
      invariant instStart == (k == 0 || !es[k - 1].more)
      invariant instIsMeta == (!instStart && Meta(es, k - 1))
      invariant labels == Labels(es, k)
    {
      if instStart && IsMeta(es[k].text) {
        instIsMeta := true;
      }
      meta := meta + [instIsMeta];
      if !instIsMeta && es[k].isLabel {
        labels := labels[es[k].text := ip];
      }
      if es[k].more {
        instStart := false;
      } else {
        instStart := true;
        if !instIsMeta && !es[k].isLabel {
          ip := ip + 1;
        }
        instIsMeta := false;
      }
    }
  }

  /** The frame of pass 2: which elements make up each instruction. The parts of an unfinished
      last bundle are lost. */
  method Collect(es: seq<Element>, meta: seq<bool>) returns (insts: seq<seq<string>>)
    requires Canonical(es)
    requires |meta| == |es| && forall k :: 0 <= k < |es| ==> meta[k] == Meta(es, k)
    ensures insts == Insts(es, |es|)
  {
    insts := [];
    var inst: seq<string> := [];
    for k := 0 to |es|
      invariant insts == Insts(es, k)
      invariant inst == Unfinished(es, k)
    {
      UnfinishedNext(es, k);
      InstsNext(es, k);
      if !meta[k] && !es[k].isLabel {
        inst := inst + [es[k].text];
        if !es[k].more {
          insts, inst := insts + [inst], [];
        }
      }
    }
  }

  /** A label points at the instruction that follows it: the addresses of the first pass are
      places in the list that the second pass builds. Everything before the label is in front
      of this place, and the first bundle that ends behind the label is at it, made of elements
      behind the label only. */
  lemma {:induction false} LabelPoints(es: seq<Element>, p: nat, q: nat)
    requires Canonical(es) && p < q < |es| && es[p].isLabel
    requires Ends(es, q) && forall j :: p < j < q ==> !Ends(es, j)
    ensures Insts(es, p) <= Insts(es, |es|) && Count(es, p) < |Insts(es, |es|)|
    ensures Insts(es, |es|)[Count(es, p)] == Bundle(es, q)
    ensures |Bundle(es, q)| <= q - p && Bundle(es, q) == Texts(es, q + 1 - |Bundle(es, q)|, q + 1)
  {
    CanonicalAt(es, p);
    CountStays(es, p, q);
    InstAt(es, q);
    InstsGrow(es, p, |es|);
    BundleWithin(es, p, q);
  }

  /** Where an instruction is in the list. */
  lemma InstAt(es: seq<Element>, q: nat)
    requires q < |es| && Ends(es, q)
    ensures Count(es, q) < |Insts(es, |es|)| && Insts(es, |es|)[Count(es, q)] == Bundle(es, q)
  {
    InstsGrow(es, q + 1, |es|);
    assert Insts(es, q + 1) == Insts(es, q) + [Bundle(es, q)];
  }

  /** The address of a label is that of an instruction if and only if an instruction follows. */
  lemma LabelInside(es: seq<Element>, p: nat)
    requires Canonical(es) && p < |es| && es[p].isLabel
    ensures Count(es, p) < |Insts(es, |es|)| <==> exists q :: p < q < |es| && Ends(es, q)
  {
    if q :| p < q < |es| && Ends(es, q) {
      assert Count(es, q + 1) > Count(es, q);
      InstsGrow(es, p, q);
      InstsGrow(es, q + 1, |es|);
    } else {
      CountStays(es, p, |es|);
    }
  }

  /** The instruction parts of the first `k` elements, in order. */
  function Parts(es: seq<Element>, k: nat): seq<string>
    requires k <= |es|
  {
    if k == 0 then []
    else Parts(es, k - 1) + if es[k - 1].isLabel || Meta(es, k - 1) then [] else [es[k - 1].text]
  }

  function Flatten(insts: seq<seq<string>>): seq<string>
  {
    if insts == [] then [] else Flatten(insts[..|insts| - 1]) + insts[|insts| - 1]
  }

  /** The parts of a bundle that has not ended before the element `k`. */
  function Unfinished(es: seq<Element>, k: nat): seq<string>
    requires k <= |es|
  {
    if k > 0 && es[k - 1].more && !Meta(es, k - 1) then Bundle(es, k - 1) else []
  }

  lemma {:induction false} PartsAreCollected(es: seq<Element>, k: nat)
    requires Canonical(es) && k <= |es|
    ensures Parts(es, k) == Flatten(Insts(es, k)) + Unfinished(es, k)
  {
    if k > 0 {
      PartsAreCollected(es, k - 1);
      UnfinishedNext(es, k - 1);
      var insts, before, text := Insts(es, k - 1), Unfinished(es, k - 1), es[k - 1].text;
      Regroup(Flatten(insts), before, text);
      if Ends(es, k - 1) {
        FlattenNext(insts, before + [text]);
      } else {
        assert Insts(es, k) == insts;
      }
    }
  }

  lemma Regroup(a: seq<string>, b: seq<string>, text: string)
    ensures (a + b) + [text] == a + (b + [text])
  {
  }

  lemma FlattenNext(insts: seq<seq<string>>, bundle: seq<string>)
    ensures Flatten(insts + [bundle]) == Flatten(insts) + bundle
  {
    assert (insts + [bundle])[..|insts|] == insts;
  }

  lemma InstsNext(es: seq<Element>, k: nat)
    requires k < |es|
    ensures Insts(es, k + 1) == Insts(es, k) + if Ends(es, k) then [Bundle(es, k)] else []
  {
  }

  lemma UnfinishedNext(es: seq<Element>, k: nat)
    requires Canonical(es) && k < |es|
    ensures es[k].isLabel ==> !es[k].more
    ensures if es[k].isLabel || Meta(es, k) then Unfinished(es, k) == []
            else Bundle(es, k) == Unfinished(es, k) + [es[k].text]
    ensures Unfinished(es, k + 1) == if es[k].more && !Meta(es, k) then Bundle(es, k) else []
  {
    CanonicalAt(es, k);
  }

  /** Every part of an instruction ends up in one, in order, if and only if the source does
      not end inside a bundle. */
  lemma NothingLostIff(es: seq<Element>)
    requires Canonical(es)
    ensures Parts(es, |es|) == Flatten(Insts(es, |es|)) <==>
            !(es != [] && es[|es| - 1].more && !Meta(es, |es| - 1))
  {
    PartsAreCollected(es, |es|);
  }

  /** Sources that end inside a bundle are accepted: any elements, and a part with a comma
      behind it. */
  lemma UnfinishedAccepted(es: seq<Element>, text: string)
    requires Canonical(es) && Clean(text)
    ensures var all := es + [Element(text, true, false)];
            && Elements(Print(es) + text + ",") == Ok(all)
            && (es == [] && !IsMeta(text) ==> Parts(all, 1) == [text] && Insts(all, 1) == [])
  {
    var last := Element(text, true, false);
    var all := es + [last];
    CanonicalNext(es, last);
    ParsePrint(all);
    assert all[..|all| - 1] == es;
    assert Print(all) == Print(es) + (text + ",") == Print(es) + text + ",";
    if es == [] {
      assert all == [last];
      assert Parts(all, 0) == [] && Insts(all, 0) == [];
    }
  }

  function Texts(es: seq<Element>, i: nat, j: nat): seq<string>
    requires i <= j <= |es|
  {
    seq(j - i, k requires 0 <= k < j - i => es[i + k].text)
  }

  lemma {:induction false} CountStays(es: seq<Element>, p: nat, q: nat)
    requires p < q <= |es| && es[p].isLabel
    requires forall j :: p < j < q ==> !Ends(es, j)
    ensures Count(es, q) == Count(es, p)
  {
    if q > p + 1 {
      CountStays(es, p, q - 1);
    } else {
      assert Count(es, p + 1) == Count(es, p);
    }
  }

  lemma {:induction false} InstsGrow(es: seq<Element>, j: nat, k: nat)
    requires j <= k <= |es|
    ensures Insts(es, j) <= Insts(es, k)
    decreases k
  {
    if j < k {
      InstsGrow(es, j, k - 1);
    }
  }

  /** A bundle behind a label does not reach back to it. */
  lemma {:induction false} BundleWithin(es: seq<Element>, p: nat, q: nat)
    requires p < q < |es| && !es[p].more
    ensures 1 <= |Bundle(es, q)| <= q - p
    ensures Bundle(es, q) == Texts(es, q + 1 - |Bundle(es, q)|, q + 1)
  {
    if es[q - 1].more {
      BundleWithin(es, p, q - 1);
      assert Bundle(es, q) == Bundle(es, q - 1) + [es[q].text];
    }
  }
}
