/** Whole lines as they are written: commands joined by "|", each a list of words in any
    quoting, and the stages Parse makes of them. */
module ShellPipelines {
  import opened Wrappers
  import opened ShellText
  import opened ShellParse
  import opened ShellWords

  /** A command with the blanks around it. */
  datatype Piece = Piece(lead: string, words: seq<seq<Fragment>>, trail: string) {
    function Text(): string
      requires words != []
    {
      lead + LineOf(words) + trail
    }

    predicate Legal() {
      && words != [] && (forall k :: 0 <= k < |words| ==> LegalWord(words[k]))
      && Spaces(lead) && Spaces(trail)
    }

    /** The stage it is: the first a command, and a later one a command if its first word is
        registered, and else a jq expression. */
    function Stage(first: bool, isCommand: string -> bool): Stage
      requires words != []
    {
      if first || isCommand(ArgvOf(words)[0])
      then Command(ArgvOf(words), if AnyMark(words) then Some(AllMarks(words)) else None, "")
      else Jq(TrimSpace(Text()))
    }
  }

  predicate Spaces(s: string) {
    forall k :: 0 <= k < |s| ==> s[k] == ' ' || s[k] == '\t' || s[k] == '\n'
  }

  predicate AllLegal(ps: seq<Piece>) {
    forall k :: 0 <= k < |ps| ==> ps[k].Legal()
  }

  function LineText(ps: seq<Piece>): string
    requires ps != [] && AllLegal(ps)
  {
    var n := |ps| - 1;
    (if n == 0 then "" else LineText(ps[..n]) + "|") + ps[n].Text()
  }

  /** The stages of the pieces, each for its own. */
  function StagesOf(ps: seq<Piece>, isCommand: string -> bool): (stages: seq<Stage>)
    requires AllLegal(ps)
    ensures |stages| == |ps|
  {
    if ps == [] then [] else
      var n := |ps| - 1;
      StagesOf(ps[..n], isCommand) + [ps[n].Stage(n == 0, isCommand)]
  }

  // ---------------------------------------------------------------- one piece

  /** Blanks between words change nothing. */
  lemma {:induction false} SpacesTaken(w: Words, s: string)
    requires w.Plain() && !w.hasWord && Spaces(s)
    ensures Leads(w, s, w)
  {
    if s == "" {
      LeadsNowhere(w);
    } else {
      var n := |s| - 1;
      SpacesTaken(w, s[..n]);
      LeadsOne(w, s[n]);
      assert Take(w, s[n]) == w;
      InitAndLast(s);
      hide Leads, Take;
      LeadsOn(w, s[..n], w, [s[n]], w);
    }
  }

  /** After a piece has been read, its words are these. */
  ghost predicate Reads(w: Words, words: seq<seq<Fragment>>) {
    w.Plain() && Flush(w) == Between(words)
  }

  lemma PieceTaken(p: Piece) returns (v: Words)
    requires p.Legal()
    ensures Leads(NO_WORDS, p.Text(), v) && Reads(v, p.words)
  {
    var init, last := p.words[..|p.words| - 1], p.words[|p.words| - 1];
    var u := Written(Between(init), last);
    assert LegalWord(last) && last != [];
    InitAndLast(p.words);
    SpacesTaken(NO_WORDS, p.lead);
    LineTaken(init, last);
    WordEnds(init, last);
    hide Leads, Written, Between, LegalWord;
    LeadsOn(NO_WORDS, p.lead, NO_WORDS, LineOf(p.words), u);
    v := TrailTaken(u, p.trail);
    LeadsOn(NO_WORDS, p.lead + LineOf(p.words), u, p.trail, v);
  }

  /** The first blank behind a word ends it. */
  lemma TrailTaken(u: Words, s: string) returns (v: Words)
    requires u.Plain() && u.hasWord && Spaces(s)
    ensures Leads(u, s, v) && v.Plain() && Flush(v) == Flush(u)
  {
    if s == "" {
      v := u;
      LeadsNowhere(u);
    } else {
      v := Flush(u);
      LeadsOne(u, s[0]);
      assert Take(u, s[0]) == v;
      SpacesTaken(v, s[1..]);
      hide Leads, Take;
      LeadsOn(u, [s[0]], v, s[1..], v);
      assert [s[0]] + s[1..] == s;
    }
  }

  lemma PieceIsItsStage(p: Piece, v: Words, first: bool, isCommand: string -> bool)
    requires p.Legal() && Reads(v, p.words)
    ensures StageOf(v, p.Text(), first, isCommand) == Ok(p.Stage(first, isCommand)) && Reset(v) == NO_WORDS
  {
    hide TrimSpace, AnyMark, Piece.Text;
  }

  // ---------------------------------------------------------------- the line

  /** Text read without a pipe or a comment is one stage's, wherever it stands. */
  lemma {:induction false} LeadsScanFrom(line: string, stages: seq<Stage>, text: string, isCommand: string -> bool)
    requires Scanned(line, isCommand) == Ok(Scan(stages, NO_WORDS, "", false))
    requires Leads(NO_WORDS, text, TakeAll(NO_WORDS, text))
    ensures Scanned(line + text, isCommand) == Ok(Scan(stages, TakeAll(NO_WORDS, text), text, false))
  {
    if text == "" {
      assert line + text == line;
    } else {
      var n := |text| - 1;
      LeadsFront(text);
      assert (line + text)[..|line + text| - 1] == line + text[..n] && (line + text)[|line + text| - 1] == text[n];
      hide Leads, TakeAll, Take, Ordinary, Advance;
      LeadsScanFrom(line, stages, text[..n], isCommand);
      OrdinaryRune(Scan(stages, TakeAll(NO_WORDS, text[..n]), text[..n], false), text[n], isCommand);
      InitAndLast(text);
    }
  }

  lemma PipeEnds(line: string, stages: seq<Stage>, v: Words, raw: string, st: Stage, isCommand: string -> bool)
    requires Scanned(line, isCommand) == Ok(Scan(stages, v, raw, false)) && v.Plain()
    requires StageOf(v, raw, stages == [], isCommand) == Ok(st) && Reset(v) == NO_WORDS
    ensures Scanned(line + "|", isCommand) == Ok(Scan(stages + [st], NO_WORDS, "", false))
  {
    ScannedSnoc(line + "|", |line|, isCommand);
    assert (line + "|")[..|line|] == line && (line + "|")[..|line| + 1] == line + "|";
    hide Scanned, StageOf, Reset;
  }

  lemma LegalParts(ps: seq<Piece>)
    requires ps != [] && AllLegal(ps)
    ensures AllLegal(ps[..|ps| - 1]) && ps[|ps| - 1].Legal() && ps[|ps| - 1].words != []
  {
  }

  lemma StagesSnoc(ps: seq<Piece>, isCommand: string -> bool)
    requires ps != [] && AllLegal(ps)
    ensures var n := |ps| - 1;
            && AllLegal(ps[..n]) && ps[n].words != []
            && StagesOf(ps, isCommand) == StagesOf(ps[..n], isCommand) + [ps[n].Stage(n == 0, isCommand)]
            && (StagesOf(ps[..n], isCommand) == [] <==> n == 0)
  {
    LegalParts(ps);
    hide Piece.Stage, Piece.Legal, AllLegal;
  }

  lemma LineTextSnoc(ps: seq<Piece>)
    requires ps != [] && AllLegal(ps)
    ensures var n := |ps| - 1;
            && AllLegal(ps[..n]) && ps[n].words != []
            && LineText(ps) == if n == 0 then ps[n].Text() else LineText(ps[..n]) + "|" + ps[n].Text()
  {
    LegalParts(ps);
    hide Piece.Text, Piece.Legal;
    assert |ps| == 1 ==> "" + ps[0].Text() == ps[0].Text();
  }

  /** Having read all the pieces but the last, and its text. */
  lemma {:induction false} LineScanned(ps: seq<Piece>, isCommand: string -> bool) returns (v: Words)
    requires ps != [] && AllLegal(ps)
    ensures var n := |ps| - 1;
            && AllLegal(ps[..n]) && ps[n].words != [] && Reads(v, ps[n].words)
            && Scanned(LineText(ps), isCommand) == Ok(Scan(StagesOf(ps[..n], isCommand), v, ps[n].Text(), false))
  {
    LegalParts(ps);
    LineTextSnoc(ps);
    var n := |ps| - 1;
    v := PieceTaken(ps[n]);
    assert TakeAll(NO_WORDS, ps[n].Text()) == v;
    if n == 0 {
      FirstScanned(ps, v, isCommand);
    } else {
      hide Leads, TakeAll, Reads, AllLegal, StagesOf, LineText, Piece.Text, Piece.Stage, Piece.Legal, Scanned;
      var u := LineScanned(ps[..n], isCommand);
      PieceCloses(ps[..n], u, isCommand);
      LeadsScanFrom(LineText(ps[..n]) + "|", StagesOf(ps[..n], isCommand), ps[n].Text(), isCommand);
    }
  }

  lemma FirstScanned(ps: seq<Piece>, v: Words, isCommand: string -> bool)
    requires |ps| == 1 && AllLegal(ps) && ps[0].words != [] && LineText(ps) == ps[0].Text()
    requires Leads(NO_WORDS, ps[0].Text(), v) && v == TakeAll(NO_WORDS, ps[0].Text())
    ensures Scanned(LineText(ps), isCommand) == Ok(Scan(StagesOf(ps[..0], isCommand), v, ps[0].Text(), false))
  {
    ScannedEmpty(isCommand);
    assert StagesOf(ps[..0], isCommand) == [];
    hide Leads, TakeAll, StagesOf, LineText, Piece.Text, Piece.Stage, Piece.Legal, Scanned;
    LeadsScanFrom("", [], ps[0].Text(), isCommand);
    assert "" + ps[0].Text() == ps[0].Text();
  }

  /** A pipe behind the pieces closes the last of them. */
  lemma PieceCloses(ps: seq<Piece>, u: Words, isCommand: string -> bool)
    requires ps != [] && AllLegal(ps)
    requires var n := |ps| - 1;
             && AllLegal(ps[..n]) && ps[n].words != [] && Reads(u, ps[n].words)
             && Scanned(LineText(ps), isCommand) == Ok(Scan(StagesOf(ps[..n], isCommand), u, ps[n].Text(), false))
    ensures Scanned(LineText(ps) + "|", isCommand) == Ok(Scan(StagesOf(ps, isCommand), NO_WORDS, "", false))
  {
    LegalParts(ps);
    StagesSnoc(ps, isCommand);
    var n := |ps| - 1;
    PieceIsItsStage(ps[n], u, n == 0, isCommand);
    ReadsSomething(u, ps[n].words);
    hide AllLegal, StagesOf, LineText, Piece.Text, Piece.Stage, Piece.Legal, Scanned, Reads, StageOf, Reset;
    PipeEnds(LineText(ps), StagesOf(ps[..n], isCommand), u, ps[n].Text(), ps[n].Stage(n == 0, isCommand), isCommand);
  }

  /** A line of written commands joined by pipes parses to one stage for each: the first, and
      every later one whose first word is registered, a command of exactly its words and
      marks; every other a jq stage of its text, trimmed. */
  lemma WrittenPipelinesParse(ps: seq<Piece>, isCommand: string -> bool)
    requires ps != [] && AllLegal(ps) && Capture(LineText(ps)) == None
    ensures ParseLine(LineText(ps), isCommand) == Ok(StagesOf(ps, isCommand))
  {
    hide Capture;
    LegalParts(ps);
    StagesSnoc(ps, isCommand);
    var n := |ps| - 1;
    var v := LineScanned(ps, isCommand);
    PieceIsItsStage(ps[n], v, n == 0, isCommand);
    ReadsSomething(v, ps[n].words);
    hide AllLegal, StagesOf, LineText, Piece.Text, Piece.Stage, Piece.Legal, Scanned, Reads, StageOf, Reset;
  }

  lemma ReadsSomething(v: Words, words: seq<seq<Fragment>>)
    requires Reads(v, words) && words != []
    ensures v.Plain() && (v.argv != [] || v.hasWord)
  {
  }
}
