/** esp_console_split_argv of components/console/split_argv.c: a command line is split into
    arguments in place. */
module SplitArgv {
  import opened Bytes

  /** What the scanner is inside of. */
  datatype Mode = Space | Arg | Quoted | ArgEscaped | QuotedEscaped

  predicate Escapes(mode: Mode)
  {
    mode.ArgEscaped? || mode.QuotedEscaped?
  }

  predicate Escapable(c: char)
  {
    c == '\\' || c == '"' || c == ' '
  }

  /** What one character does: the next mode, whether the character is kept as a part of the
      argument, and whether the argument ends. */
  datatype Move = Move(next: Mode, keeps: bool, ends: bool)

  function Next(mode: Mode, c: char): Move
  {
    match mode
    case Space =>
      if c == ' ' then Move(Space, false, false)
      else if c == '"' then Move(Quoted, false, false)
      else if c == '\\' then Move(ArgEscaped, false, false)
      else Move(Arg, true, false)
    case Arg =>
      if c == ' ' then Move(Space, false, true)
      else if c == '\\' then Move(ArgEscaped, false, false)
      else Move(Arg, true, false)
    case Quoted =>
      if c == '"' then Move(Space, false, true)
      else if c == '\\' then Move(QuotedEscaped, false, false)
      else Move(Quoted, true, false)
    case ArgEscaped => Move(Arg, Escapable(c), false)
    case QuotedEscaped => Move(Quoted, Escapable(c), false)
  }

  function Keep(cur: seq<char>, c: char, m: Move): seq<char>
  {
    if m.ends then [] else if m.keeps then cur + [c] else cur
  }

  /** The arguments in `s` for a scanner in `mode` that has collected `cur` of the current
      argument. An argument that is still open at the end counts. */
  function Split(s: seq<char>, mode: Mode, cur: seq<char>): seq<seq<char>>
  {
    if s == [] then
      if mode == Space then [] else [cur]
    else
      var m := Next(mode, s[0]);
      (if m.ends then [cur] else []) + Split(s[1..], m.next, Keep(cur, s[0], m))
  }

  function Arguments(line: seq<char>): seq<seq<char>>
  {
    Split(line, Space, [])
  }

  // ---- The lines that the scanner reads ----

  /** How the characters of an argument can be written: a character that stands for itself,
      an escape sequence, or an unknown one, which stands for nothing. */
  datatype Piece = Plain(c: char) | Escaped(c: char) | Unknown(c: char) {

    function Text(): seq<char> {
      if Plain? then [c] else ['\\', c]
    }

    function Meaning(): seq<char> {
      if Unknown? then [] else [c]
    }

    predicate Fits(quoted: bool) {
      match this
      case Plain(c) => c != '\\' && c != (if quoted then '"' else ' ')
      case Escaped(c) => Escapable(c)
      case Unknown(c) => !Escapable(c)
    }
  }

  function Texts(ps: seq<Piece>): seq<char>
  {
    if ps == [] then [] else ps[0].Text() + Texts(ps[1..])
  }

  function Meanings(ps: seq<Piece>): seq<char>
  {
    if ps == [] then [] else ps[0].Meaning() + Meanings(ps[1..])
  }

  predicate FitAll(ps: seq<Piece>, quoted: bool)
  {
    ps == [] || (ps[0].Fits(quoted) && FitAll(ps[1..], quoted))
  }

  /** An argument as it is written. Without quotes it cannot be empty or start with a quote. */
  datatype Word = Word(quoted: bool, pieces: seq<Piece>) {

    predicate Ok() {
      FitAll(pieces, quoted) && (!quoted ==> pieces != [] && pieces[0] != Plain('"'))
    }

    function Text(): seq<char> {
      if quoted then ['"'] + Texts(pieces) + ['"'] else Texts(pieces)
    }
  }

  function Blanks(n: nat): (b: seq<char>)
    ensures |b| == n
  {
    if n == 0 then [] else [' '] + Blanks(n - 1)
  }

  /** How a line ends behind its words: properly, inside of a quoted word, or with a backslash
      behind a word. */
  datatype Tail = Closed | Unclosed(pieces: seq<Piece>, slash: bool) | Hanging(pieces: seq<Piece>) {

    predicate Ok() {
      match this
      case Closed => true
      case Unclosed(ps, _) => FitAll(ps, true)
      case Hanging(ps) => FitAll(ps, false) && (ps != [] ==> ps[0] != Plain('"'))
    }

    function Text(): seq<char> {
      match this
      case Closed => []
      case Unclosed(ps, slash) => ['"'] + (Texts(ps) + if slash then ['\\'] else [])
      case Hanging(ps) => Texts(ps) + ['\\']
    }

    /** An open word is an argument like any other. */
    function Contents(): seq<seq<char>> {
      if Closed? then [] else [Meanings(pieces)]
    }
  }

  /** Words with spaces around them. */
  function Line(ws: seq<Word>, gaps: seq<nat>, tail: Tail): seq<char>
    requires |gaps| == |ws| + 1
  {
    Blanks(gaps[0]) + if ws == [] then tail.Text() else ws[0].Text() + Line(ws[1..], gaps[1..], tail)
  }

  /** Only a word without quotes needs a space behind it. */
  predicate LineOk(ws: seq<Word>, gaps: seq<nat>, tail: Tail)
    requires |gaps| == |ws| + 1
  {
    if ws == [] then tail.Ok()
    else ws[0].Ok() && (!ws[0].quoted && (|ws| > 1 || tail != Closed) ==> gaps[1] >= 1)
         && LineOk(ws[1..], gaps[1..], tail)
  }

  function Contents(ws: seq<Word>): seq<seq<char>>
  {
    if ws == [] then [] else [Meanings(ws[0].pieces)] + Contents(ws[1..])
  }

  lemma SplitStep(c: char, rest: seq<char>, mode: Mode, cur: seq<char>)
    ensures var m := Next(mode, c);
            Split([c] + rest, mode, cur)
            == (if m.ends then [cur] else []) + Split(rest, m.next, Keep(cur, c, m))
  {
    assert ([c] + rest)[1..] == rest;
  }

  function Within(quoted: bool): Mode
  {
    if quoted then Quoted else Arg
  }

  /** A piece, also at the start of a word without quotes. */
  lemma SplitPiece(p: Piece, quoted: bool, mode: Mode, cur: seq<char>, rest: seq<char>)
    requires p.Fits(quoted)
    requires mode == Within(quoted) || (mode == Space && !quoted && cur == [] && p != Plain('"'))
    ensures Split(p.Text() + rest, mode, cur) == Split(rest, Within(quoted), cur + p.Meaning())
  {
    if p.Plain? {
      SplitStep(p.c, rest, mode, cur);
    } else {
      assert p.Text() + rest == ['\\'] + ([p.c] + rest);
      SplitStep('\\', [p.c] + rest, mode, cur);
      SplitStep(p.c, rest, if quoted then QuotedEscaped else ArgEscaped, cur);
      assert cur + [] == cur;
    }
  }

  lemma {:induction false} SplitPieces(ps: seq<Piece>, quoted: bool, mode: Mode, cur: seq<char>, rest: seq<char>)
    requires FitAll(ps, quoted)
    requires mode == Within(quoted)
             || (mode == Space && !quoted && cur == [] && ps != [] && ps[0] != Plain('"'))
    ensures Split(Texts(ps) + rest, mode, cur) == Split(rest, Within(quoted), cur + Meanings(ps))
  {
    if ps == [] {
      assert Texts(ps) + rest == rest && cur + Meanings(ps) == cur;
    } else {
      var tail := Texts(ps[1..]) + rest;
      AppendAssociates(ps[0].Text(), Texts(ps[1..]), rest);
      AppendAssociates(cur, ps[0].Meaning(), Meanings(ps[1..]));
      SplitPiece(ps[0], quoted, mode, cur, tail);
      SplitPieces(ps[1..], quoted, Within(quoted), cur + ps[0].Meaning(), rest);
    }
  }

  lemma {:induction false} SplitBlanks(n: nat, rest: seq<char>)
    ensures Arguments(Blanks(n) + rest) == Arguments(rest)
  {
    if n == 0 {
      assert Blanks(n) + rest == rest;
    } else {
      assert Blanks(n) + rest == [' '] + (Blanks(n - 1) + rest);
      SplitStep(' ', Blanks(n - 1) + rest, Space, []);
      SplitBlanks(n - 1, rest);
    }
  }

  lemma SplitQuotedWord(ps: seq<Piece>, rest: seq<char>)
    requires FitAll(ps, true)
    ensures Arguments(['"'] + Texts(ps) + ['"'] + rest) == [Meanings(ps)] + Arguments(rest)
  {
    var tail := ['"'] + rest;
    assert ['"'] + Texts(ps) + ['"'] + rest == ['"'] + (Texts(ps) + tail);
    assert [] + Meanings(ps) == Meanings(ps);
    SplitStep('"', Texts(ps) + tail, Space, []);
    SplitPieces(ps, true, Quoted, [], tail);
    SplitStep('"', rest, Quoted, Meanings(ps));
  }

  lemma SplitBareWord(ps: seq<Piece>, rest: seq<char>)
    requires FitAll(ps, false) && ps != [] && ps[0] != Plain('"')
    requires rest == [] || rest[0] == ' '
    ensures Arguments(Texts(ps) + rest) == [Meanings(ps)] + Arguments(rest)
  {
    assert [] + Meanings(ps) == Meanings(ps);
    SplitPieces(ps, false, Space, [], rest);
    if rest != [] {
      assert rest == [' '] + rest[1..];
      SplitStep(' ', rest[1..], Arg, Meanings(ps));
      SplitStep(' ', rest[1..], Space, []);
    }
  }

  lemma SplitTail(tail: Tail)
    requires tail.Ok()
    ensures Arguments(tail.Text()) == tail.Contents()
  {
    match tail
    case Closed =>
    case Unclosed(ps, slash) =>
      var end := if slash then ['\\'] else [];
      SplitStep('"', Texts(ps) + end, Space, []);
      SplitPieces(ps, true, Quoted, [], end);
      SlashAtEnd(Quoted, [] + Meanings(ps), end);
      assert [] + Meanings(ps) == Meanings(ps);
    case Hanging(ps) =>
      if ps == [] {
        assert tail.Text() == ['\\'];
        SlashAtEnd(Space, [], ['\\']);
      } else {
        SplitPieces(ps, false, Space, [], ['\\']);
        SlashAtEnd(Arg, [] + Meanings(ps), ['\\']);
        assert [] + Meanings(ps) == Meanings(ps);
      }
  }

  /** A backslash at the end of a line stands for nothing. */
  lemma SlashAtEnd(mode: Mode, cur: seq<char>, end: seq<char>)
    requires end == ['\\'] || (end == [] && mode == Quoted)
    requires !Escapes(mode) && (mode == Space ==> cur == [])
    ensures Split(end, mode, cur) == [cur]
  {
    if end != [] {
      assert end == ['\\'] + [];
      SplitStep('\\', [], mode, cur);
    }
  }

  /** A line splits into what its words mean: quotes and the backslashes of escape sequences
      go, unknown sequences disappear, and all other characters stay, such as quotes inside a
      word without quotes, or tabs. An open word at the end counts as well. */
  lemma {:induction false} SplitLine(ws: seq<Word>, gaps: seq<nat>, tail: Tail)
    requires |gaps| == |ws| + 1 && LineOk(ws, gaps, tail)
    ensures Arguments(Line(ws, gaps, tail)) == Contents(ws) + tail.Contents()
  {
    if ws == [] {
      SplitBlanks(gaps[0], tail.Text());
      SplitTail(tail);
    } else {
      var rest := Line(ws[1..], gaps[1..], tail);
      SplitBlanks(gaps[0], ws[0].Text() + rest);
      SplitLine(ws[1..], gaps[1..], tail);
      if ws[0].quoted {
        SplitQuotedWord(ws[0].pieces, rest);
      } else {
        SplitBareWord(ws[0].pieces, rest);
      }
    }
  }

  // ---- Every line has this form ----

  /** Reads pieces up to a character that ends the word, or to the end of the line. */
  lemma {:induction false} ReadPieces(s: seq<char>, quoted: bool) returns (ps: seq<Piece>, rest: seq<char>)
    ensures s == Texts(ps) + rest && FitAll(ps, quoted)
    ensures rest == [] || rest == ['\\'] || rest[0] == if quoted then '"' else ' '
    ensures ps == [] ==> rest == s
    ensures ps != [] && ps[0].Plain? ==> s[0] == ps[0].c
    decreases |s|
  {
    if s == [] || s == ['\\'] || s[0] == (if quoted then '"' else ' ') {
      ps, rest := [], s;
    } else {
      var p := if s[0] != '\\' then Plain(s[0]) else if Escapable(s[1]) then Escaped(s[1]) else Unknown(s[1]);
      var more;
      more, rest := ReadPieces(s[|p.Text()|..], quoted);
      ps := [p] + more;
      assert s == p.Text() + s[|p.Text()|..];
      AppendAssociates(p.Text(), Texts(more), rest);
    }
  }

  lemma OneWord(w: Word, gap: nat)
    requires w.Ok()
    ensures LineOk([w], [gap, 0], Closed) && Line([w], [gap, 0], Closed) == Blanks(gap) + w.Text()
  {
    assert [gap, 0][1..] == [0];
  }

  lemma NoWord(gap: nat, tail: Tail)
    requires tail.Ok()
    ensures LineOk([], [gap], tail) && Line([], [gap], tail) == Blanks(gap) + tail.Text()
  {
  }

  lemma LineHead(ws: seq<Word>, gaps: seq<nat>, tail: Tail, gap: nat, w: Word)
    requires |gaps| == |ws| + 1
    ensures Line([w] + ws, [gap] + gaps, tail) == Blanks(gap) + (w.Text() + Line(ws, gaps, tail))
  {
    var ws', gaps' := [w] + ws, [gap] + gaps;
    assert ws'[0] == w && ws'[1..] == ws && gaps'[0] == gap && gaps'[1..] == gaps;
  }

  lemma MoreWords(w: Word, ws: seq<Word>, gaps: seq<nat>, tail: Tail)
    requires w.Ok() && |gaps| == |ws| + 1 && LineOk(ws, gaps, tail) && (w.quoted || gaps[0] >= 1)
    ensures LineOk([w] + ws, [0] + gaps, tail)
    ensures Line([w] + ws, [0] + gaps, tail) == w.Text() + Line(ws, gaps, tail)
  {
    var ws', gaps' := [w] + ws, [0] + gaps;
    assert ws'[0] == w && ws'[1..] == ws && gaps'[1..] == gaps && gaps'[1] == gaps[0];
    LineHead(ws, gaps, tail, 0, w);
    assert Blanks(0) == [];
  }

  lemma BlanksFirst(n: nat, rest: seq<char>)
    ensures Blanks(n + 1) + rest == [' '] + (Blanks(n) + rest)
  {
  }

  lemma MoreBlanks(ws: seq<Word>, gaps: seq<nat>, tail: Tail)
    requires |gaps| == |ws| + 1 && LineOk(ws, gaps, tail)
    ensures LineOk(ws, [gaps[0] + 1] + gaps[1..], tail)
    ensures Line(ws, [gaps[0] + 1] + gaps[1..], tail) == [' '] + Line(ws, gaps, tail)
  {
    var gaps' := [gaps[0] + 1] + gaps[1..];
    assert gaps'[1..] == gaps[1..] && gaps'[0] == gaps[0] + 1;
    BlanksFirst(gaps[0], if ws == [] then tail.Text() else ws[0].Text() + Line(ws[1..], gaps[1..], tail));
  }

  /** Every line can be read as words, so what SplitLine says covers all lines. */
  lemma {:induction false} EveryLine(s: seq<char>) returns (ws: seq<Word>, gaps: seq<nat>, tail: Tail)
    ensures |gaps| == |ws| + 1 && LineOk(ws, gaps, tail) && Line(ws, gaps, tail) == s
    ensures s != [] && s[0] == ' ' ==> gaps[0] >= 1
    decreases |s|
  {
    if s == [] {
      NoWord(0, Closed);
      ws, gaps, tail := [], [0], Closed;
    } else if s[0] == ' ' {
      ws, gaps, tail := EveryLine(s[1..]);
      MoreBlanks(ws, gaps, tail);
      gaps := [gaps[0] + 1] + gaps[1..];
    } else {
      var quoted := s[0] == '"';
      var ps, rest := ReadPieces(if quoted then s[1..] else s, quoted);
      if quoted {
        ws, gaps, tail := LineFromQuoted(s, ps, rest);
      } else if rest == ['\\'] {
        NoWord(0, Hanging(ps));
        ws, gaps, tail := [], [0], Hanging(ps);
      } else {
        var w := Word(false, ps);
        if rest == [] {
          OneWord(w, 0);
          ws, gaps, tail := [w], [0, 0], Closed;
        } else {
          ws, gaps, tail := EveryLine(rest);
          MoreWords(w, ws, gaps, tail);
          ws, gaps := [w] + ws, [0] + gaps;
        }
      }
    }
  }

  lemma QuotedText(s: seq<char>, ps: seq<Piece>, rest: seq<char>)
    requires s != [] && s[0] == '"' && s[1..] == Texts(ps) + rest && rest != [] && rest[0] == '"'
    ensures s == Word(true, ps).Text() + rest[1..]
  {
    var text := Texts(ps);
    assert rest == ['"'] + rest[1..];
    assert s == ['"'] + (text + (['"'] + rest[1..])) == ['"'] + text + ['"'] + rest[1..];
  }

  /** A line that starts with a quoted word. */
  lemma {:induction false} LineFromQuoted(s: seq<char>, ps: seq<Piece>, rest: seq<char>)
    returns (ws: seq<Word>, gaps: seq<nat>, tail: Tail)
    requires s != [] && s[0] == '"' && s[1..] == Texts(ps) + rest && FitAll(ps, true)
    requires rest == [] || rest == ['\\'] || rest[0] == '"'
    ensures |gaps| == |ws| + 1 && LineOk(ws, gaps, tail) && Line(ws, gaps, tail) == s
    decreases |s|, 0
  {
    if rest != [] && rest[0] == '"' {
      var w := Word(true, ps);
      ws, gaps, tail := EveryLine(rest[1..]);
      MoreWords(w, ws, gaps, tail);
      ws, gaps := [w] + ws, [0] + gaps;
      QuotedText(s, ps, rest);
    } else {
      assert s == ['"'] + s[1..];
      tail := Unclosed(ps, rest != []);
      NoWord(0, tail);
      ws, gaps := [], [0];
    }
  }

  // ---- Writing given arguments ----

  /** Backslashes and quotes need a backslash, and so do spaces without quotes. */
  function Spell(arg: seq<char>, quoted: bool): seq<Piece>
  {
    if arg == [] then []
    else [if arg[0] == '\\' || arg[0] == '"' || (arg[0] == ' ' && !quoted) then Escaped(arg[0]) else Plain(arg[0])]
         + Spell(arg[1..], quoted)
  }

  lemma {:induction false} SpellMeans(arg: seq<char>, quoted: bool)
    ensures Meanings(Spell(arg, quoted)) == arg && FitAll(Spell(arg, quoted), quoted)
    ensures arg != [] ==> Spell(arg, quoted) != [] && Spell(arg, quoted)[0] != Plain('"')
    ensures '\0' !in arg ==> '\0' !in Texts(Spell(arg, quoted))
  {
    if arg != [] {
      SpellMeans(arg[1..], quoted);
      assert Spell(arg, quoted)[1..] == Spell(arg[1..], quoted);
      assert arg == [arg[0]] + arg[1..];
    }
  }

  function Words(args: seq<seq<char>>, quoted: seq<bool>): (ws: seq<Word>)
    requires |quoted| == |args|
    ensures |ws| == |args|
  {
    if args == [] then [] else [Word(quoted[0], Spell(args[0], quoted[0]))] + Words(args[1..], quoted[1..])
  }

  /** The arguments, each quoted or not, with one space between them. */
  function Join(args: seq<seq<char>>, quoted: seq<bool>): seq<char>
    requires |quoted| == |args|
  {
    Line(Words(args, quoted), [0] + Gaps(|args|), Closed)
  }

  function Gaps(n: nat): (gaps: seq<nat>)
    ensures |gaps| == n
  {
    if n == 0 then [] else if n == 1 then [0] else [1] + Gaps(n - 1)
  }

  lemma {:induction false} WordsMean(args: seq<seq<char>>, quoted: seq<bool>, gap: nat)
    requires |quoted| == |args|
    requires forall i :: 0 <= i < |args| ==> quoted[i] || args[i] != []
    ensures LineOk(Words(args, quoted), [gap] + Gaps(|args|), Closed)
    ensures Contents(Words(args, quoted)) == args
  {
    if args != [] {
      SpellMeans(args[0], quoted[0]);
      var gaps := Gaps(|args|);
      WordsMean(args[1..], quoted[1..], gaps[0]);
      var ws := Words(args, quoted);
      assert ws[1..] == Words(args[1..], quoted[1..]);
      assert ([gap] + gaps)[1..] == gaps == [gaps[0]] + Gaps(|args| - 1);
      assert args == [args[0]] + args[1..];
    }
  }

  /** Splitting a line that was written from arguments returns exactly these arguments,
      whatever characters they hold; only an empty argument has to be quoted. */
  lemma SplitJoin(args: seq<seq<char>>, quoted: seq<bool>)
    requires |quoted| == |args|
    requires forall i :: 0 <= i < |args| ==> quoted[i] || args[i] != []
    ensures Arguments(Join(args, quoted)) == args
  {
    WordsMean(args, quoted, 0);
    SplitLine(Words(args, quoted), [0] + Gaps(|args|), Closed);
  }

  predicate NoNul(ws: seq<Word>)
  {
    ws == [] || ('\0' !in Texts(ws[0].pieces) && NoNul(ws[1..]))
  }

  lemma {:induction false} LineNoNul(ws: seq<Word>, gaps: seq<nat>)
    requires |gaps| == |ws| + 1 && NoNul(ws)
    ensures '\0' !in Line(ws, gaps, Closed)
  {
    BlanksNoNul(gaps[0]);
    if ws != [] {
      LineNoNul(ws[1..], gaps[1..]);
      assert '\0' !in ws[0].Text();
      assert '\0' !in ws[0].Text() + Line(ws[1..], gaps[1..], Closed);
    }
  }

  lemma {:induction false} WordsNoNul(args: seq<seq<char>>, quoted: seq<bool>)
    requires |quoted| == |args|
    requires forall i :: 0 <= i < |args| ==> '\0' !in args[i]
    ensures NoNul(Words(args, quoted))
  {
    if args != [] {
      SpellMeans(args[0], quoted[0]);
      WordsNoNul(args[1..], quoted[1..]);
      assert Words(args, quoted)[1..] == Words(args[1..], quoted[1..]);
    }
  }

  /** Such a line holds no NUL if the arguments do not, so the scanner reads all of it. */
  lemma JoinNoNul(args: seq<seq<char>>, quoted: seq<bool>)
    requires |quoted| == |args|
    requires forall i :: 0 <= i < |args| ==> '\0' !in args[i]
    ensures '\0' !in Join(args, quoted)
  {
    WordsNoNul(args, quoted);
    LineNoNul(Words(args, quoted), [0] + Gaps(|args|));
  }

  lemma {:induction false} BlanksNoNul(n: nat)
    ensures '\0' !in Blanks(n)
  {
    if n > 0 {
      BlanksNoNul(n - 1);
    }
  }

  // ---- Spaces and other whitespace ----

  /** Whitespace other than the space. */
  predicate Odd(c: char)
  {
    9 <= c as int <= 13
  }

  predicate Unquotes(mode: Mode)
  {
    mode.Space? || mode.Arg?
  }

  /** What a scanner would do for which all whitespace separates arguments. */
  function NextWhite(mode: Mode, c: char): Move
  {
    if Unquotes(mode) && Odd(c) then Next(mode, ' ') else Next(mode, c)
  }

  function SplitWhite(s: seq<char>, mode: Mode, cur: seq<char>): seq<seq<char>>
  {
    if s == [] then
      if mode == Space then [] else [cur]
    else
      var m := NextWhite(mode, s[0]);
      (if m.ends then [cur] else []) + SplitWhite(s[1..], m.next, Keep(cur, s[0], m))
  }

  /** There is whitespace other than a space outside of quotes and escape sequences. */
  predicate HasOdd(s: seq<char>, mode: Mode)
  {
    s != [] && ((Unquotes(mode) && Odd(s[0])) || HasOdd(s[1..], Next(mode, s[0]).next))
  }

  function OddIn(arg: seq<char>): nat
  {
    if arg == [] then 0 else OddIn(arg[..|arg| - 1]) + if Odd(arg[|arg| - 1]) then 1 else 0
  }

  function OddInAll(args: seq<seq<char>>): nat
  {
    if args == [] then 0 else OddIn(args[0]) + OddInAll(args[1..])
  }

  /** How many such characters are not part of an escape sequence. */
  function OddLeft(s: seq<char>, escaped: bool): nat
  {
    if s == [] then 0
    else (if Odd(s[0]) && !escaped then 1 else 0) + OddLeft(s[1..], !escaped && s[0] == '\\')
  }

  lemma OddKeep(mode: Mode, cur: seq<char>, c: char, m: Move)
    requires m == Next(mode, c) || m == NextWhite(mode, c)
    ensures Escapes(m.next) == (!Escapes(mode) && c == '\\')
    ensures OddIn(Keep(cur, c, m)) == if m.ends then 0 else OddIn(cur) + if m.keeps && Odd(c) then 1 else 0
    ensures m == Next(mode, c) && Odd(c) ==> !m.ends && m.keeps == !Escapes(mode)
    ensures !Odd(c) || Escapes(mode) ==> m == Next(mode, c)
    ensures Escapes(mode) ==> !m.ends && (Odd(c) ==> !m.keeps)
    ensures m.next == Space && (mode == Space ==> cur == []) ==> Keep(cur, c, m) == []
  {
    assert (cur + [c])[..|cur|] == cur;
  }

  lemma OddEnds(cur: seq<char>, rest: seq<seq<char>>, ends: bool)
    ensures OddInAll((if ends then [cur] else []) + rest) == (if ends then OddIn(cur) else 0) + OddInAll(rest)
  {
    if ends {
      assert ([cur] + rest)[1..] == rest;
    } else {
      assert [] + rest == rest;
    }
  }

  /** The scanner keeps all of them. */
  lemma {:induction false} OddSplit(s: seq<char>, mode: Mode, cur: seq<char>)
    requires mode == Space ==> cur == []
    ensures OddInAll(Split(s, mode, cur)) == OddIn(cur) + OddLeft(s, Escapes(mode))
    decreases s
  {
    if s != [] {
      var m := Next(mode, s[0]);
      OddKeep(mode, cur, s[0], m);
      OddSplit(s[1..], m.next, Keep(cur, s[0], m));
      OddEnds(cur, Split(s[1..], m.next, Keep(cur, s[0], m)), m.ends);
    }
  }

  /** The other one keeps at most as many, and fewer if it meets one outside of quotes. */
  lemma {:induction false} OddWhite(s: seq<char>, mode: Mode, cur: seq<char>)
    requires mode == Space ==> cur == []
    ensures OddInAll(SplitWhite(s, mode, cur)) <= OddIn(cur) + OddLeft(s, Escapes(mode))
    ensures HasOdd(s, mode) ==> OddInAll(SplitWhite(s, mode, cur)) < OddIn(cur) + OddLeft(s, Escapes(mode))
    decreases s
  {
    if s != [] {
      var m := NextWhite(mode, s[0]);
      OddKeep(mode, cur, s[0], m);
      OddWhite(s[1..], m.next, Keep(cur, s[0], m));
      OddEnds(cur, SplitWhite(s[1..], m.next, Keep(cur, s[0], m)), m.ends);
    }
  }

  lemma {:induction false} SameWithoutOdd(s: seq<char>, mode: Mode, cur: seq<char>)
    requires !HasOdd(s, mode)
    ensures SplitWhite(s, mode, cur) == Split(s, mode, cur)
    decreases s
  {
    if s != [] {
      SameWithoutOdd(s[1..], Next(mode, s[0]).next, Keep(cur, s[0], Next(mode, s[0])));
    }
  }

  /** Splitting at spaces is splitting at whitespace if and only if the line has no other
      whitespace outside of quotes and escape sequences. */
  lemma SpacesAreWhitespaceIff(line: seq<char>)
    ensures Arguments(line) == SplitWhite(line, Space, []) <==> !HasOdd(line, Space)
  {
    if HasOdd(line, Space) {
      OddSplit(line, Space, []);
      OddWhite(line, Space, []);
    } else {
      SameWithoutOdd(line, Space, []);
    }
  }

  // ---- In place ----

  /** A pointer into the line. */
  datatype Pointer = Null | At(offset: nat)

  /** At `p`, `mem` holds the C string `s`. */
  ghost predicate Holds(mem: seq<char>, p: Pointer, s: seq<char>)
  {
    p.At? && p.offset + |s| < |mem| && mem[p.offset..p.offset + |s|] == s
    && mem[p.offset + |s|] == '\0' && '\0' !in s
  }

  ghost predicate HoldsAll(mem: seq<char>, ps: seq<Pointer>, args: seq<seq<char>>)
  {
    |ps| == |args| && forall i :: 0 <= i < |ps| ==> Holds(mem, ps[i], args[i])
  }

  lemma HoldsMore(mem: seq<char>, later: seq<char>, ps: seq<Pointer>, args: seq<seq<char>>)
    requires HoldsAll(mem, ps, args) && mem <= later
    ensures HoldsAll(later, ps, args)
  {
    forall i | 0 <= i < |ps|
      ensures Holds(later, ps[i], args[i])
    {
      assert Holds(mem, ps[i], args[i]);
    }
  }

  /** Where the scanner is: what it read, what it wrote, and the current argument. */
  datatype Cursor = Cursor(mode: Mode, start: nat, at: nat, out: nat, cur: seq<char>)

  /** The current argument is what was stored behind `start`. */
  ghost predicate Open(mem: seq<char>, c: Cursor)
  {
    && c.start <= c.out <= |mem| && '\0' !in c.cur
    && (if c.mode == Space then c.cur == [] else c.cur == mem[c.start..c.out])
  }

  /** `k` arguments end before the cursor, and the others are still to come. */
  ghost predicate Parsed(line: seq<char>, k: nat, c: Cursor)
  {
    && c.at <= |line| && k <= |Arguments(line)|
    && Arguments(line) == Arguments(line)[..k] + Split(line[c.at..], c.mode, c.cur)
  }

  /** The write position never passes the read position, so what is still to be read is
      unchanged. */
  ghost predicate Unread(was: seq<char>, n: nat, mem: seq<char>, c: Cursor)
  {
    c.out <= c.at <= n < |mem| == |was| && mem[c.at..] == was[c.at..]
  }

  /** The state of the loop: `mem` was `was` at first, and `ps` lead to the arguments found so
      far. */
  ghost predicate Scanned(was: seq<char>, n: nat, mem: seq<char>, ps: seq<Pointer>, c: Cursor)
  {
    && Unread(was, n, mem, c) && Open(mem, c) && Parsed(was[..n], |ps|, c)
    && HoldsAll(mem[..c.out], ps, Arguments(was[..n])[..|ps|])
  }

  /** The cursor behind a character that does not end an argument. */
  function Kept(c: Cursor, ch: char): Cursor
  {
    var m := Next(c.mode, ch);
    Cursor(m.next, if c.mode == Space && m.next != Space then c.out else c.start, c.at + 1,
           if m.keeps then c.out + 1 else c.out, Keep(c.cur, ch, m))
  }

  /** The cursor behind a character that ends an argument. */
  function Ended(c: Cursor): Cursor
  {
    Cursor(Space, c.start, c.at + 1, c.out + 1, [])
  }

  lemma OpenKept(mem: seq<char>, c: Cursor, ch: char)
    requires Open(mem, c) && c.out < |mem| && ch != '\0' && !Next(c.mode, ch).ends
    ensures Open(if Next(c.mode, ch).keeps then mem[c.out := ch] else mem, Kept(c, ch))
  {
    if Next(c.mode, ch).keeps && c.mode != Space {
      assert mem[c.out := ch][c.start..c.out + 1] == mem[c.start..c.out] + [ch];
    }
  }

  lemma ParsedNext(line: seq<char>, k: nat, c: Cursor)
    requires Parsed(line, k, c) && c.at < |line|
    ensures var ends := Next(c.mode, line[c.at]).ends;
            && (!ends ==> Parsed(line, k, Kept(c, line[c.at])))
            && (ends ==> Parsed(line, k + 1, Ended(c)) && Arguments(line)[..k + 1] == Arguments(line)[..k] + [c.cur])
  {
    var all := Arguments(line);
    assert line[c.at..][1..] == line[c.at + 1..];
    if Next(c.mode, line[c.at]).ends {
      var rest := Split(line[c.at + 1..], Space, []);
      AppendOne(all, k, c.cur, rest);
    }
  }

  lemma AppendOne(all: seq<seq<char>>, k: nat, cur: seq<char>, rest: seq<seq<char>>)
    requires k <= |all| && all == all[..k] + ([cur] + rest)
    ensures k < |all| && all[..k + 1] == all[..k] + [cur] && all == all[..k + 1] + rest
  {
  }

  lemma UnreadNext(was: seq<char>, n: nat, mem: seq<char>, c: Cursor, ch: char)
    requires Unread(was, n, mem, c) && c.at < n
    ensures mem[c.at] == was[c.at] == was[..n][c.at]
    ensures mem[c.at + 1..] == mem[c.out := ch][c.at + 1..] == was[c.at + 1..]
  {
    assert mem[c.at] == mem[c.at..][0] == was[c.at..][0];
    assert mem[c.at + 1..] == mem[c.at..][1..] == was[c.at..][1..] == was[c.at + 1..];
  }

  /** A character that is skipped or kept. */
  lemma ScannedKeep(was: seq<char>, n: nat, mem: seq<char>, ps: seq<Pointer>, c: Cursor, mem': seq<char>)
    requires Scanned(was, n, mem, ps, c) && c.at < n && mem[c.at] != '\0'
    requires var m := Next(c.mode, mem[c.at]);
             !m.ends && mem' == if m.keeps then mem[c.out := mem[c.at]] else mem
    ensures Scanned(was, n, mem', ps, Kept(c, mem[c.at]))
  {
    var ch := mem[c.at];
    UnreadNext(was, n, mem, c, ch);
    ParsedNext(was[..n], |ps|, c);
    OpenKept(mem, c, ch);
    HoldsMore(mem[..c.out], mem'[..Kept(c, ch).out], ps, Arguments(was[..n])[..|ps|]);
  }

  /** A character that ends an argument. */
  lemma ScannedEnd(was: seq<char>, n: nat, mem: seq<char>, ps: seq<Pointer>, c: Cursor)
    requires Scanned(was, n, mem, ps, c) && c.at < n && mem[c.at] != '\0' && Next(c.mode, mem[c.at]).ends
    ensures Scanned(was, n, mem[c.out := '\0'], ps + [At(c.start)], Ended(c))
  {
    UnreadNext(was, n, mem, c, '\0');
    ParsedNext(was[..n], |ps|, c);
    HoldsLast(mem, ps, Arguments(was[..n])[..|ps|], c);
  }

  /** The current argument is terminated. */
  lemma HoldsLast(mem: seq<char>, ps: seq<Pointer>, args: seq<seq<char>>, c: Cursor)
    requires Open(mem, c) && c.mode != Space && c.out < |mem| && HoldsAll(mem[..c.out], ps, args)
    ensures HoldsAll(mem[c.out := '\0'][..c.out + 1], ps + [At(c.start)], args + [c.cur])
  {
    var mem' := mem[c.out := '\0'];
    HoldsMore(mem[..c.out], mem'[..c.out + 1], ps, args);
    assert mem'[..c.out + 1][c.start..c.out] == c.cur;
    assert Holds(mem'[..c.out + 1], At(c.start), c.cur);
  }

  /** The end of the loop, where the last argument is terminated. */
  lemma ScannedAll(was: seq<char>, n: nat, mem: seq<char>, ps: seq<Pointer>, c: Cursor, limit: nat)
    requires Scanned(was, n, mem, ps, c)
    requires |ps| <= limit && (|ps| == limit || c.at == n)
    ensures var all := Arguments(was[..n]);
            var ps' := if c.mode != Space && |ps| < limit then ps + [At(c.start)] else ps;
            && |ps'| == (if |all| < limit then |all| else limit)
            && HoldsAll(mem[c.out := '\0'][..c.out + 1], ps', all[..|ps'|])
  {
    var all := Arguments(was[..n]);
    var mem' := mem[c.out := '\0'];
    HoldsMore(mem[..c.out], mem'[..c.out + 1], ps, all[..|ps|]);
    if |ps| < limit {
      assert was[..n][c.at..] == [];
      if c.mode != Space {
        assert all[..|ps| + 1] == all[..|ps|] + [c.cur];
        HoldsLast(mem, ps, all[..|ps|], c);
      }
    }
  }

  /** Behind the C string nothing was touched. */
  lemma UnreadRest(was: seq<char>, n: nat, mem: seq<char>, c: Cursor)
    requires Unread(was, n, mem, c)
    ensures mem[c.out := '\0'][n + 1..] == was[n + 1..]
  {
    assert mem[c.out := '\0'][n + 1..] == mem[c.at..][n + 1 - c.at..] == was[c.at..][n + 1 - c.at..];
  }

  /** esp_console_split_argv. `n` is the length of the C string in `line`. The pointers lead
      to the first arguments of the line, as many as fit, and a null pointer follows them. */
  method SplitInPlace(line: array<char>, argv: array<Pointer>, ghost n: nat) returns (argc: nat)
    requires argv.Length > 0
    requires n < line.Length && line[n] == '\0' && '\0' !in line[..n]
    modifies line, argv
    ensures var all := Arguments(old(line[..n]));
            && argc == (if |all| < argv.Length then |all| else argv.Length - 1)
            && HoldsAll(line[..n + 1], argv[..argc], all[..argc])
    ensures argv[argc] == Null && argv[argc + 1..] == old(argv[argc + 1..])
    ensures line[n + 1..] == old(line[n + 1..])
  {
    ghost var was := line[..];
    var mode, start, out;
    ghost var c;
    argc, mode, start, out, c := ScanLine(line, argv, n);
    ghost var mem, ps := line[..], argv[..argc];
    ScannedAll(was, n, mem, ps, c, argv.Length - 1);
    UnreadRest(was, n, mem, c);
    argc := Terminate(line, argv, argc, mode, start, out);
    assert line[..] == mem[out := '\0'] && line[..n] == line[..][..n];
    HoldsMore(line[..out + 1], line[..n + 1], argv[..argc], Arguments(was[..n])[..argc]);
  }

  /** The loop. */
  method ScanLine(line: array<char>, argv: array<Pointer>, ghost n: nat)
    returns (argc: nat, mode: Mode, start: nat, out: nat, ghost c: Cursor)
    requires argv.Length > 0
    requires n < line.Length && line[n] == '\0' && '\0' !in line[..n]
    modifies line, argv
    ensures argc < argv.Length && (argc == argv.Length - 1 || c.at == n)
    ensures c.mode == mode && c.start == start && c.out == out
    ensures Scanned(old(line[..]), n, line[..], argv[..argc], c)
    ensures argv[argc..] == old(argv[argc..])
  {
    ghost var was := line[..];
    mode, argc, start, out := Space, 0, 0, 0;
    var i := 0;
    c := Cursor(Space, 0, 0, 0, []);
    assert was[..n][0..] == was[..n] == line[..n];
    while argc < argv.Length - 1 && line[i] != '\0'
      invariant c.mode == mode && c.start == start && c.out == out && c.at == i
      invariant argc <= argv.Length - 1
      invariant argv[argc..] == old(argv[argc..])
      invariant Scanned(was, n, line[..], argv[..argc], c)
      decreases n - i
    {
      AtEnd(was, n, line[..], c);
      argc, mode, start, out, c := ScanChar(line, argv, argc, mode, start, out, i, was, n, c);
      i := i + 1;
    }
    AtEnd(was, n, line[..], c);
  }

  /** The body of the loop. */
  method ScanChar(line: array<char>, argv: array<Pointer>, argc: nat, mode: Mode, start: nat, out: nat, at: nat,
                  ghost was: seq<char>, ghost n: nat, ghost c: Cursor)
    returns (argc': nat, mode': Mode, start': nat, out': nat, ghost c': Cursor)
    requires argc + 1 < argv.Length
    requires c.mode == mode && c.start == start && c.out == out && c.at == at < n
    requires Scanned(was, n, line[..], argv[..argc], c) && line[at] != '\0'
    modifies line, argv
    ensures c'.mode == mode' && c'.start == start' && c'.out == out' && c'.at == at + 1
    ensures argc' == argc || argc' == argc + 1
    ensures Scanned(was, n, line[..], argv[..argc'], c')
    ensures argv[argc'..] == old(argv[argc..])[argc' - argc..]
  {
    var ch := line[at];
    var m := Next(mode, ch);
    argc', start', out', mode' := argc, start, out, m.next;
    if m.ends {
      EndArg(line, argv, argc, start, out, was, n, c);
      argc', out', c' := argc + 1, out + 1, Ended(c);
    } else {
      start', out' := KeepChar(line, start, out, mode, at, was, n, argv[..argc], c);
      c' := Kept(c, ch);
    }
  }

  /** Only the end of the C string is a NUL. */
  lemma AtEnd(was: seq<char>, n: nat, mem: seq<char>, c: Cursor)
    requires Unread(was, n, mem, c) && was[n] == '\0' && '\0' !in was[..n]
    ensures mem[c.at] == '\0' <==> c.at == n
  {
    assert mem[c.at] == mem[c.at..][0] == was[c.at..][0] == was[c.at];
    assert c.at < n ==> was[c.at] == was[..n][c.at];
  }

  /** The macro END_ARG: an argument is terminated and gets its pointer. */
  method EndArg(line: array<char>, argv: array<Pointer>, argc: nat, start: nat, out: nat,
                ghost was: seq<char>, ghost n: nat, ghost c: Cursor)
    requires argc < argv.Length && c.start == start && c.out == out
    requires Scanned(was, n, line[..], argv[..argc], c)
    requires c.at < n && line[c.at] != '\0' && Next(c.mode, line[c.at]).ends
    modifies line, argv
    ensures Scanned(was, n, line[..], argv[..argc + 1], Ended(c))
    ensures argv[argc + 1..] == old(argv[argc..])[1..]
  {
    ghost var mem, ps := line[..], argv[..argc];
    ScannedEnd(was, n, mem, ps, c);
    line[out] := '\0';
    argv[argc] := At(start);
    assert line[..] == mem[out := '\0'] && argv[..argc + 1] == ps + [At(start)];
  }

  /** A character that does not end an argument: it may start one, and it may be kept. */
  method KeepChar(line: array<char>, start: nat, out: nat, mode: Mode, at: nat,
                  ghost was: seq<char>, ghost n: nat, ghost ps: seq<Pointer>, ghost c: Cursor)
    returns (start': nat, out': nat)
    requires c.mode == mode && c.start == start && c.out == out && c.at == at
    requires Scanned(was, n, line[..], ps, c)
    requires at < n && line[at] != '\0' && !Next(mode, line[at]).ends
    modifies line
    ensures Scanned(was, n, line[..], ps, Kept(c, old(line[at])))
    ensures start' == Kept(c, old(line[at])).start && out' == Kept(c, old(line[at])).out
  {
    ghost var mem := line[..];
    var ch := line[at];
    var m := Next(mode, ch);
    ScannedKeep(was, n, mem, ps, c, if m.keeps then mem[out := ch] else mem);
    start', out' := if mode == Space && m.next != Space then out else start, out;
    if m.keeps {
      line[out] := ch;
      out' := out + 1;
      assert line[..] == mem[out := ch];
    }
  }

  /** What follows the loop: the last argument is terminated and may still be counted, and the
      null pointer is put behind the pointers. */
  method Terminate(line: array<char>, argv: array<Pointer>, argc: nat, mode: Mode, start: nat, out: nat)
    returns (count: nat)
    requires argc < argv.Length && out < line.Length
    modifies line, argv
    ensures line[..] == old(line[..])[out := '\0']
    ensures count == if mode != Space && argc < argv.Length - 1 then argc + 1 else argc
    ensures argv[..count] == old(argv[..argc]) + if count > argc then [At(start)] else []
    ensures argv[count] == Null && argv[count + 1..] == old(argv[argc..])[count + 1 - argc..]
  {
    count := argc;
    line[out] := '\0';
    if mode != Space && count < argv.Length - 1 {
      argv[count] := At(start);
      count := count + 1;
    }
    argv[count] := Null;
  }
}
