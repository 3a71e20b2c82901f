/** The shell's parser (internal/shell/parse.go): a line becomes stages, a stage words, and
    every "$" that expansion must leave alone is marked. */
module ShellParse {
  import opened Wrappers
  import opened ShellText

  /** A command stage carries its words and the marks of their literal "$"; a jq stage its
      text.  `marks` is None when no "$" of the stage is marked. */
  datatype Stage =
    | Command(argv: seq<string>, marks: Option<seq<seq<nat>>>, capture: string)
    | Jq(expr: string)

  datatype ParseError = UnterminatedQuote | LeadingPipe | TrailingPipe

  type Parsed<T> = Result<T, ParseError>

  datatype Quote = Unquoted | InSingle | InDouble

  /** One stage as it is read. */
  datatype Words = Words(
    argv: seq<string>,
    dollarOf: seq<seq<nat>>,
    cur: string,
    dollars: seq<nat>,
    hasWord: bool,
    quotedDollar: bool,
    anyDollar: bool,
    quote: Quote,
    escaped: bool)
  {
    predicate Plain() { !escaped && quote == Unquoted }
  }

  const NO_WORDS := Words([], [], "", [], false, false, false, Unquoted, false)

  function Write(w: Words, r: char, literal: bool): Words {
    var mark := r == '$' && (literal || w.quotedDollar);
    w.(dollars := if mark then w.dollars + [|w.cur|] else w.dollars,
       anyDollar := w.anyDollar || mark,
       quotedDollar := r == '"',
       cur := w.cur + Utf8(r),
       hasWord := true)
  }

  function Flush(w: Words): Words {
    if w.hasWord then
      w.(argv := w.argv + [w.cur], dollarOf := w.dollarOf + [w.dollars],
         cur := "", dollars := [], hasWord := false, quotedDollar := false)
    else w
  }

  /** One rune that is neither a stage's end nor in a comment. */
  function Take(w: Words, r: char): Words {
    if w.escaped then Write(w, r, true).(escaped := false)
    else
      match w.quote
      case InSingle => if r == '\'' then w.(quote := Unquoted, quotedDollar := false) else Write(w, r, true)
      case InDouble =>
        if r == '"' then w.(quote := Unquoted, quotedDollar := false)
        else if r == '\\' then w.(escaped := true)
        else Write(w, r, false)
      case Unquoted =>
        if r == '\\' then w.(escaped := true)
        else if r == '\'' then w.(quote := InSingle, quotedDollar := false, hasWord := true)
        else if r == '"' then w.(quote := InDouble, quotedDollar := w.cur != "", hasWord := true)
        else if r == ' ' || r == '\t' || r == '\n' then Flush(w)
        else Write(w, r, false)
  }

  /** A line as it is read: the stages closed, the one being read, its text. */
  datatype Scan = Scan(stages: seq<Stage>, words: Words, raw: string, comment: bool)

  /** The stage that was read as w, its text as `raw`; `first` says none came before it. */
  function StageOf(w: Words, raw: string, first: bool, isCommand: string -> bool): Parsed<Stage> {
    var f := Flush(w);
    var text := TrimSpace(raw);
    if f.argv == [] && text == "" then Err(if first then LeadingPipe else TrailingPipe)
    else if !first && (f.argv == [] || !isCommand(f.argv[0])) then Ok(Jq(text))
    else Ok(Command(f.argv, if f.anyDollar then Some(f.dollarOf) else None, ""))
  }

  /** The variables once a stage has been closed. */
  function Reset(w: Words): Words {
    Flush(w).(argv := [], dollarOf := [], anyDollar := false)
  }

  function CloseStage(c: Scan, isCommand: string -> bool): Parsed<Scan> {
    match StageOf(c.words, c.raw, c.stages == [], isCommand)
    case Err(e) => Err(e)
    case Ok(st) => Ok(Scan(c.stages + [st], Reset(c.words), "", false))
  }

  function Advance(c: Scan, r: char, isCommand: string -> bool): Parsed<Scan> {
    if c.comment && r != '\n' then Ok(c)
    else if r == '#' && !c.words.hasWord && c.words.Plain() then Ok(c.(comment := true))
    else if r == '|' && c.words.Plain() then CloseStage(c, isCommand)
    else Ok(c.(words := Take(c.words, r), raw := c.raw + [r], comment := false))
  }

  /** A line read so far. */
  function Scanned(line: string, isCommand: string -> bool): Parsed<Scan> {
    if line == "" then Ok(Scan([], NO_WORDS, "", false)) else
      match Scanned(line[..|line| - 1], isCommand)
      case Err(e) => Err(e)
      case Ok(c) => Advance(c, line[|line| - 1], isCommand)
  }

  function Finish(c: Scan, isCommand: string -> bool): Parsed<seq<Stage>> {
    if !c.words.Plain() then Err(UnterminatedQuote)
    else if c.stages == [] && c.words.argv == [] && !c.words.hasWord then Ok([])
    else
      match CloseStage(c, isCommand)
      case Err(e) => Err(e)
      case Ok(d) => Ok(d.stages)
  }

  function Stages(line: string, isCommand: string -> bool): Parsed<seq<Stage>> {
    match Scanned(line, isCommand)
    case Err(e) => Err(e)
    case Ok(c) => Finish(c, isCommand)
  }

  // ---------------------------------------------------------------- set <name> = <pipeline>

  predicate IsBlank(r: char) { r == ' ' || r == '\t' }

  function SkipBlanks(s: string): (t: string)
    ensures |t| <= |s|
  {
    if s != "" && IsBlank(s[0]) then SkipBlanks(s[1..]) else s
  }

  /** Up to the first blank, and the rest. */
  function WordOf(s: string): (w: string)
    ensures |w| <= |s| && w == s[..|w|]
  {
    if s == "" || IsBlank(s[0]) then "" else [s[0]] + WordOf(s[1..])
  }

  function CutWord(s: string): Option<(string, string)> {
    var t := SkipBlanks(s);
    if t == "" then None else Some((WordOf(t), t[|WordOf(t)|..]))
  }

  predicate IsLetter(c: char) { 'a' <= c <= 'z' || 'A' <= c <= 'Z' || c == '_' }

  predicate IsNameByte(c: char) { IsLetter(c) || '0' <= c <= '9' }

  /** varNamePattern. */
  predicate IsVarName(s: string) {
    s != "" && IsLetter(s[0]) && forall k :: 0 <= k < |s| ==> IsNameByte(s[k])
  }

  lemma VarNamesAre(s: string, c: char)
    ensures !IsVarName("") && (IsVarName([c]) <==> IsLetter(c))
    ensures s != "" ==> (IsVarName(s + [c]) <==> IsVarName(s) && IsNameByte(c))
  {
    var t := s + [c];
    assert t[|s|] == c && forall k :: 0 <= k < |s| ==> t[k] == s[k];
  }

  function Capture(line: string): Option<Stage> {
    match CutWord(line)
    case None => None
    case Some((word, afterWord)) =>
      if word != "set" then None else
        match CutWord(afterWord)
        case None => None
        case Some((name, afterName)) =>
          if !IsVarName(name) then None else
            match CutWord(afterName)
            case None => None
            case Some((eq, rest)) =>
              var text := TrimSpace(rest);
              if eq != "=" || text == "" then None else Some(Command(["set", name, "="], None, text))
  }

  function ParseLine(line: string, isCommand: string -> bool): Parsed<seq<Stage>> {
    match Capture(line)
    case Some(st) => Ok([st])
    case None => Stages(line, isCommand)
  }

  // ---------------------------------------------------------------- the loop

  lemma ScannedEmpty(isCommand: string -> bool)
    ensures Scanned("", isCommand) == Ok(Scan([], NO_WORDS, "", false))
  {
  }

  lemma ScannedSnoc(line: string, i: nat, isCommand: string -> bool)
    requires i < |line|
    ensures Scanned(line[..i + 1], isCommand) ==
            match Scanned(line[..i], isCommand)
            case Err(e) => Err(e)
            case Ok(c) => Advance(c, line[i], isCommand)
  {
    assert line[..i + 1][..i] == line[..i];
  }

  /** The parser itself, over local variables and an index. */
  method Parse(line: string, isCommand: string -> bool) returns (res: Parsed<seq<Stage>>)
    ensures res == ParseLine(line, isCommand)
  {
    hide Scanned, Capture, Take, StageOf, Reset;
    ScannedEmpty(isCommand);
    var capture := Capture(line);
    if capture.Some? {
      return Ok([capture.value]);
    }
    var stages: seq<Stage> := [];
    var w := NO_WORDS;
    var raw := "";
    var i := 0;
    while i < |line|
      invariant 0 <= i <= |line|
      invariant var c := Scanned(line[..i], isCommand);
                c == Ok(Scan(stages, w, raw, false)) ||
                (c == Ok(Scan(stages, w, raw, true)) && (i < |line| ==> line[i] == '\n'))
    {
      var r := line[i];
      ScannedSnoc(line, i, isCommand);
      if r == '#' && !w.hasWord && w.Plain() {
        i := i + 1;
        while i < |line| && line[i] != '\n'
          invariant 0 < i <= |line|
          invariant Scanned(line[..i], isCommand) == Ok(Scan(stages, w, raw, true))
        {
          ScannedSnoc(line, i, isCommand);
          i := i + 1;
        }
        continue;
      }
      if r == '|' && w.Plain() {
        var st := StageOf(w, raw, stages == [], isCommand);
        if st.Err? {
          ErrorStays(line, i + 1, isCommand);
          return Err(st.error);
        }
        stages, w, raw := stages + [st.value], Reset(w), "";
        i := i + 1;
        continue;
      }
      raw := raw + [r];
      w := Take(w, r);
      i := i + 1;
    }
    assert line[..i] == line;
    if !w.Plain() {
      return Err(UnterminatedQuote);
    }
    if stages == [] && w.argv == [] && !w.hasWord {
      return Ok([]);
    }
    var st := StageOf(w, raw, stages == [], isCommand);
    if st.Err? {
      return Err(st.error);
    }
    return Ok(stages + [st.value]);
  }

  lemma {:induction false} ErrorStays(line: string, i: nat, isCommand: string -> bool)
    requires i <= |line| && Scanned(line[..i], isCommand).Err?
    ensures Scanned(line, isCommand) == Scanned(line[..i], isCommand)
  {
    if i < |line| {
      assert line[..|line| - 1][..i] == line[..i];
      ErrorStays(line[..|line| - 1], i, isCommand);
    } else {
      assert line[..i] == line;
    }
  }
}
