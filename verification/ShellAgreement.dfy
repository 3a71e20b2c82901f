/** The shell's three scanners agree: with one another on quotes and escapes, and - on a
    line without comments - on where its stages end. */
module ShellAgreement {
  import opened Wrappers
  import opened ShellText
  import opened ShellParse
  import opened ShellScanners

  // ---------------------------------------------------------------- Parse and NeedsMore

  /** Between words the word variables are clear. */
  predicate Clear(w: Words) {
    !w.hasWord ==> w.cur == "" && w.dollars == [] && !w.quotedDollar
  }

  /** Parser and NeedsMore in the same place. */
  predicate Same(c: Scan, m: More) {
    && Clear(c.words)
    && c.words.quote == m.quote && c.words.escaped == m.escaped && c.comment == m.comment
    && (m.quote != Unquoted ==> c.words.hasWord)
    && (m.Plain() ==> c.words.hasWord == !m.atTokenStart)
    && (m.comment ==> m.Plain() && m.atTokenStart)
  }

  lemma SameStep(c: Scan, m: More, r: char, isCommand: string -> bool)
    requires Same(c, m) && Advance(c, r, isCommand).Ok?
    ensures Same(Advance(c, r, isCommand).value, Look(m, r))
  {
    hide TrimSpace, Utf8;
  }

  lemma {:induction false} SamePlace(line: string, isCommand: string -> bool)
    requires Scanned(line, isCommand).Ok?
    ensures Same(Scanned(line, isCommand).value, Looked(line))
  {
    if line != "" {
      var front := line[..|line| - 1];
      SamePlace(front, isCommand);
      SameStep(Scanned(front, isCommand).value, Looked(front), line[|line| - 1], isCommand);
    }
  }

  /** NeedsMore is right to stop: a line it calls complete is never one Parse finds an open
      quote in. */
  lemma CompleteMeansClosed(line: string, isCommand: string -> bool)
    requires !WantsMore(Looked(line))
    ensures ParseLine(line, isCommand) != Err(UnterminatedQuote)
  {
    OpenIffUnterminated(line, isCommand);
  }

  /** And the open quote or backslash NeedsMore sees is the one Parse reports, unless the
      line is a capture, or one of its stages is empty. */
  lemma OpenIffUnterminated(line: string, isCommand: string -> bool)
    ensures ParseLine(line, isCommand) == Err(UnterminatedQuote) ==> !Looked(line).Plain()
    ensures !Looked(line).Plain() && Capture(line) == None ==> ParseLine(line, isCommand).Err?
    ensures !Looked(line).Plain() && Capture(line) == None && Scanned(line, isCommand).Ok? ==>
              ParseLine(line, isCommand) == Err(UnterminatedQuote)
  {
    hide Capture, Looked, TrimSpace;
    if Scanned(line, isCommand).Ok? {
      SamePlace(line, isCommand);
    } else {
      NeverUnterminated(line, isCommand);
    }
  }

  lemma {:induction false} NeverUnterminated(line: string, isCommand: string -> bool)
    ensures Scanned(line, isCommand) != Err(UnterminatedQuote)
  {
    if line != "" {
      hide TrimSpace, Take;
      NeverUnterminated(line[..|line| - 1], isCommand);
    }
  }

  // ---------------------------------------------------------------- open brackets

  /** What the last rune of a line does to the count of open brackets. */
  function Weight(line: string): int
    requires line != ""
  {
    var m, r := Looked(line[..|line| - 1]), line[|line| - 1];
    if !m.Plain() || m.comment then 0
    else if r == '{' || r == '[' then 1
    else if r == '}' || r == ']' then -1
    else 0
  }

  /** Brackets opened less brackets closed from rune i on, outside quotes and comments. */
  function Net(line: string, i: nat): int {
    if i >= |line| then 0 else Net(line[..|line| - 1], i) + Weight(line)
  }

  /** NeedsMore's depth is what is still open: the worst balance of any tail of the line.  A
      closing bracket too many never pays for one opened later. */
  lemma {:induction false} DepthIsWorstTail(line: string) returns (i: nat)
    ensures i <= |line| && Looked(line).depth == Net(line, i)
    ensures forall j :: 0 <= j <= |line| ==> Net(line, j) <= Looked(line).depth
  {
    i := 0;
    if line != "" {
      var front := line[..|line| - 1];
      i := DepthIsWorstTail(front);
      assert Looked(line).depth == (if Looked(front).depth + Weight(line) < 0 then 0 else Looked(front).depth + Weight(line));
      hide Looked, Weight;
      forall j | 0 <= j <= |front|
        ensures Net(line, j) == Net(front, j) + Weight(line)
      {
        if j == |front| {
          assert Net(front, j) == 0;
        }
      }
      if Looked(line).depth == 0 && Net(line, i) < 0 {
        i := |line|;
      }
    }
  }

  /** The shell reads another line exactly when this one ends in a quote, or behind a
      backslash, or some tail of it opens more brackets than it closes. */
  lemma NeedsMoreIff(line: string)
    ensures WantsMore(Looked(line)) <==>
            Looked(line).quote != Unquoted || Looked(line).escaped || exists i: nat :: i < |line| && Net(line, i) > 0
  {
    var i := DepthIsWorstTail(line);
    hide Looked;
    if Looked(line).depth > 0 {
      assert Net(line, i) > 0 && i < |line|;
    }
  }

  // ---------------------------------------------------------------- splitStages loses nothing

  function Joined(ps: seq<string>): string
    requires ps != []
  {
    if |ps| == 1 then ps[0] else Joined(ps[..|ps| - 1]) + "|" + ps[|ps| - 1]
  }

  lemma JoinedLast(ps: seq<string>, p: string, tail: string)
    ensures Joined(ps + [p + tail]) == Joined(ps + [p]) + tail
  {
    if ps != [] {
      assert (ps + [p])[..|ps|] == ps && (ps + [p + tail])[..|ps|] == ps;
    }
  }

  lemma JoinedMore(ps: seq<string>, p: string)
    requires ps != []
    ensures Joined(ps + [p]) == Joined(ps) + "|" + p
  {
    assert (ps + [p])[..|ps|] == ps;
  }

  lemma CutRejoins(p: Split, r: char)
    ensures Joined(Cut(p, r).done + [Cut(p, r).piece]) == Joined(p.done + [p.piece]) + [r]
  {
    if Cut(p, r).done == p.done {
      JoinedLast(p.done, p.piece, [r]);
    } else {
      var ps := p.done + [p.piece];
      JoinedMore(ps, "");
      hide Joined;
      assert Joined(ps) + "|" + "" == Joined(ps) + ['|'];
    }
  }

  /** The pieces, joined again by the pipes they were cut at, are the line. */
  lemma {:induction false} Rejoin(line: string)
    ensures Joined(Pieces(line)) == line
  {
    if line != "" {
      var n := |line| - 1;
      Rejoin(line[..n]);
      CutRejoins(CutAll(line[..n]), line[n]);
      CutSnoc(line, n);
      assert line[..n + 1] == line;
      hide Joined, Cut, CutAll;
      assert line[..n] + [line[n]] == line;
    }
  }

  // ---------------------------------------------------------------- Parse and splitStages

  /** The words of a piece of text that is all one stage. */
  function WordsOf(piece: string): Words {
    if piece == "" then NO_WORDS else Take(WordsOf(piece[..|piece| - 1]), piece[|piece| - 1])
  }

  /** No "#" of the line begins a comment. */
  ghost predicate CommentFree(line: string) {
    forall k :: 0 <= k <= |line| ==> !Looked(line[..k]).comment
  }

  ghost predicate StagesAre(stages: seq<Stage>, pieces: seq<string>, isCommand: string -> bool) {
    && |stages| == |pieces|
    && forall k :: 0 <= k < |stages| ==> StageOf(WordsOf(pieces[k]), pieces[k], k == 0, isCommand) == Ok(stages[k])
  }

  /** Parser and splitter in the same place. */
  ghost predicate Abreast(c: Scan, p: Split, isCommand: string -> bool) {
    && !c.comment && Clear(c.words)
    && c.words.quote == p.quote && c.words.escaped == p.escaped
    && c.raw == p.piece && c.words == WordsOf(p.piece)
    && StagesAre(c.stages, p.done, isCommand)
  }

  lemma AbreastStep(c: Scan, p: Split, r: char, isCommand: string -> bool)
    requires Abreast(c, p, isCommand) && Advance(c, r, isCommand).Ok? && !Advance(c, r, isCommand).value.comment
    ensures Abreast(Advance(c, r, isCommand).value, Cut(p, r), isCommand)
  {
    if r == '|' && c.words.Plain() {
      AbreastCut(c, p, isCommand);
    } else {
      hide StageOf, TrimSpace, Utf8, StagesAre;
      assert (p.piece + [r])[..|p.piece|] == p.piece;
    }
  }

  lemma AbreastCut(c: Scan, p: Split, isCommand: string -> bool)
    requires Abreast(c, p, isCommand) && c.words.Plain() && Advance(c, '|', isCommand).Ok?
    ensures Abreast(Advance(c, '|', isCommand).value, Cut(p, '|'), isCommand)
  {
    hide TrimSpace, Utf8, WordsOf, StageOf, Take;
    EmptyWords();
    assert c.stages == [] <==> |p.done| == 0;
  }

  lemma EmptyWords()
    ensures WordsOf("") == NO_WORDS
  {
  }

  lemma {:induction false} KeepAbreast(line: string, isCommand: string -> bool)
    requires Scanned(line, isCommand).Ok? && CommentFree(line)
    ensures Abreast(Scanned(line, isCommand).value, CutAll(line), isCommand)
  {
    if line == "" {
      EmptyWords();
    } else {
      var front := line[..|line| - 1];
      FrontIsFree(line);
      KeepAbreast(front, isCommand);
      SamePlace(line, isCommand);
      assert line[..|line|] == line;
      assert !Scanned(line, isCommand).value.comment;
      hide Abreast, Same, Advance;
      AbreastStep(Scanned(front, isCommand).value, CutAll(front), line[|line| - 1], isCommand);
    }
  }

  /** On an ordinary line that Parse accepts, with no comment in it, splitStages cuts at
      exactly Parse's stage boundaries: each stage is what its piece says on its own. */
  lemma PiecesAreStages(line: string, isCommand: string -> bool)
    requires Capture(line) == None && CommentFree(line)
    requires ParseLine(line, isCommand).Ok? && ParseLine(line, isCommand).value != []
    ensures StagesAre(ParseLine(line, isCommand).value, Pieces(line), isCommand)
  {
    hide Capture, TrimSpace, WordsOf, CutAll, Scanned;
    KeepAbreast(line, isCommand);
  }

  /** In particular a jq stage's text is its piece, trimmed. */
  lemma ExprIsItsPiece(line: string, isCommand: string -> bool, k: nat)
    requires Capture(line) == None && CommentFree(line)
    requires ParseLine(line, isCommand).Ok? && k < |ParseLine(line, isCommand).value|
    requires ParseLine(line, isCommand).value[k].Jq?
    ensures k < |Pieces(line)| && ParseLine(line, isCommand).value[k].expr == TrimSpace(Pieces(line)[k])
  {
    hide Capture, TrimSpace, WordsOf, Scanned, Pieces;
    PiecesAreStages(line, isCommand);
  }

  // ---------------------------------------------------------------- which lines Parse accepts

  /** Nothing but what separates words. */
  predicate Wordless(piece: string) {
    forall k :: 0 <= k < |piece| ==> piece[k] == ' ' || piece[k] == '\t' || piece[k] == '\n'
  }

  lemma {:induction false} WordlessReads(piece: string)
    ensures var w := WordsOf(piece);
            && (Wordless(piece) ==> w == NO_WORDS)
            && (!Wordless(piece) ==> w.hasWord || w.argv != [] || w.escaped)
            && (w.quote != Unquoted ==> w.hasWord)
  {
    if piece != "" {
      hide Utf8;
      WordlessReads(piece[..|piece| - 1]);
    }
  }

  /** A stage is refused exactly when it is wordless. */
  lemma EmptyStage(piece: string, first: bool, isCommand: string -> bool)
    requires WordsOf(piece).Plain()
    ensures StageOf(WordsOf(piece), piece, first, isCommand).Err? <==> Wordless(piece)
    ensures StageOf(WordsOf(piece), piece, first, isCommand).Err? ==>
              StageOf(WordsOf(piece), piece, first, isCommand).error == if first then LeadingPipe else TrailingPipe
  {
    WordlessReads(piece);
    if Wordless(piece) {
      assert Blank(piece);
      TrimBlank(piece);
    }
    hide WordsOf, TrimSpace;
  }

  lemma {:induction false} SameQuotes(line: string)
    requires CommentFree(line)
    ensures CutAll(line).quote == Looked(line).quote && CutAll(line).escaped == Looked(line).escaped && !Looked(line).comment
  {
    assert line[..|line|] == line;
    if line != "" {
      FrontIsFree(line);
      SameQuotes(line[..|line| - 1]);
    }
  }

  lemma FrontIsFree(line: string)
    requires CommentFree(line) && line != ""
    ensures CommentFree(line[..|line| - 1])
  {
    var front := line[..|line| - 1];
    forall k | 0 <= k <= |front|
      ensures !Looked(front[..k]).comment
    {
      assert front[..k] == line[..k];
    }
  }

  /** The first of the pieces that is wordless is number i. */
  predicate FirstWordless(ps: seq<string>, i: nat) {
    i < |ps| && Wordless(ps[i]) && forall k :: 0 <= k < i ==> !Wordless(ps[k])
  }

  /** Reading stops at the first pipe that closes a wordless piece, and nowhere else. */
  lemma {:induction false} StopsAtWordless(line: string, isCommand: string -> bool) returns (i: nat)
    requires CommentFree(line)
    ensures var c := Scanned(line, isCommand);
            if c.Ok? then forall k :: 0 <= k < |CutAll(line).done| ==> !Wordless(CutAll(line).done[k])
            else FirstWordless(CutAll(line).done, i) && c.error == if i == 0 then LeadingPipe else TrailingPipe
  {
    i := 0;
    if line == "" {
    } else {
      var front, r := line[..|line| - 1], line[|line| - 1];
      FrontIsFree(line);
      Unfold(line, isCommand);
      hide Scanned, CutAll, Looked, Wordless, WordsOf, StageOf, Advance, Cut, CommentFree;
      i := StopsAtWordless(front, isCommand);
      var c, p := Scanned(front, isCommand), CutAll(front);
      if c.Err? {
        DoneGrows(p, r);
        FirstStays(p.done, Cut(p, r).done, i);
      } else {
        KeepAbreast(front, isCommand);
        if r == '|' && c.value.words.Plain() {
          ClosesPiece(c.value, p, isCommand);
          i := |p.done|;
        } else {
          NoPipeNoStop(c.value, p, r, isCommand);
        }
      }
    }
  }

  lemma FirstStays(a: seq<string>, b: seq<string>, i: nat)
    requires FirstWordless(a, i) && a <= b
    ensures FirstWordless(b, i)
  {
    hide Wordless;
    assert forall k :: 0 <= k < |a| ==> b[k] == a[k];
  }

  lemma Unfold(line: string, isCommand: string -> bool)
    requires line != ""
    ensures var front, r := line[..|line| - 1], line[|line| - 1];
            && CutAll(line) == Cut(CutAll(front), r)
            && (Scanned(front, isCommand).Ok? ==> Scanned(line, isCommand) == Advance(Scanned(front, isCommand).value, r, isCommand))
            && (Scanned(front, isCommand).Err? ==> Scanned(line, isCommand) == Scanned(front, isCommand))
  {
  }

  lemma DoneGrows(p: Split, r: char)
    ensures p.done <= Cut(p, r).done
  {
  }

  /** A pipe closes a piece, and stops the reading exactly if that piece is wordless. */
  lemma ClosesPiece(c: Scan, p: Split, isCommand: string -> bool)
    requires Abreast(c, p, isCommand) && c.words.Plain()
    requires forall k :: 0 <= k < |p.done| ==> !Wordless(p.done[k])
    ensures var more, next := Cut(p, '|').done, Advance(c, '|', isCommand);
            if next.Ok? then forall k :: 0 <= k < |more| ==> !Wordless(more[k])
            else FirstWordless(more, |p.done|) && next.error == if |p.done| == 0 then LeadingPipe else TrailingPipe
  {
    EmptyStage(p.piece, p.done == [], isCommand);
    hide WordsOf, StageOf, Wordless, Take, Clear, Flush;
    assert c.stages == [] <==> p.done == [];
    assert c.raw == p.piece && c.words == WordsOf(p.piece);
    hide Abreast;
    assert Cut(p, '|').done == p.done + [p.piece];
  }

  lemma NoPipeNoStop(c: Scan, p: Split, r: char, isCommand: string -> bool)
    requires Abreast(c, p, isCommand) && !(r == '|' && c.words.Plain())
    ensures Advance(c, r, isCommand).Ok? && Cut(p, r).done == p.done
  {
    hide WordsOf, StageOf, Take;
  }

  /** Exactly which ordinary lines without comments Parse accepts: those that end outside
      quotes and have no empty stage - except that a line of nothing at all is no stage. */
  lemma AcceptedExactly(line: string, isCommand: string -> bool)
    requires Capture(line) == None && CommentFree(line)
    ensures ParseLine(line, isCommand).Ok? <==>
              Looked(line).Plain() && (|Pieces(line)| == 1 || forall k :: 0 <= k < |Pieces(line)| ==> !Wordless(Pieces(line)[k]))
    ensures ParseLine(line, isCommand) == Err(LeadingPipe) <==> |Pieces(line)| > 1 && Wordless(Pieces(line)[0])
  {
    hide Capture, Looked, Scanned, WordsOf, TrimSpace, Wordless;
    var i := StopsAtWordless(line, isCommand);
    SameQuotes(line);
    var p, ps := CutAll(line), Pieces(line);
    assert forall k :: 0 <= k < |p.done| ==> ps[k] == p.done[k];
    assert ps[|p.done|] == p.piece;
    if Scanned(line, isCommand).Ok? {
      KeepAbreast(line, isCommand);
      var c := Scanned(line, isCommand).value;
      if c.words.Plain() {
        EmptyStage(p.piece, p.done == [], isCommand);
        LastStage(c, p, isCommand);
      }
    }
  }

  lemma LastStage(c: Scan, p: Split, isCommand: string -> bool)
    requires Abreast(c, p, isCommand) && c.words.Plain()
    ensures var st := StageOf(WordsOf(p.piece), p.piece, p.done == [], isCommand);
            var end := Finish(c, isCommand);
            && (end.Ok? <==> st.Ok? || p.done == [])
            && (end.Err? ==> end.error == TrailingPipe)
  {
    WordlessReads(p.piece);
    EmptyStage(p.piece, p.done == [], isCommand);
    hide WordsOf, TrimSpace, Wordless;
    assert c.stages == [] <==> p.done == [];
  }

  // ---------------------------------------------------------------- lines with comments

  /** After a line that left NeedsMore at m, Parse drops rune r: it is in a comment, or
      begins one. */
  predicate Drops(m: More, r: char) {
    (m.comment && r != '\n') || (r == '#' && m.Plain() && m.atTokenStart)
  }

  /** The texts Parse collects: those of the stages closed, and that of the one being read. */
  datatype Gather = Gather(done: seq<string>, raw: string)

  function Collect(g: Gather, m: More, r: char): Gather {
    if Drops(m, r) then g
    else if r == '|' && m.Plain() then Gather(g.done + [g.raw], "")
    else Gather(g.done, g.raw + [r])
  }

  function Gathered(line: string): Gather {
    if line == "" then Gather([], "")
    else Collect(Gathered(line[..|line| - 1]), Looked(line[..|line| - 1]), line[|line| - 1])
  }

  function Texts(line: string): (ts: seq<string>)
    ensures ts != []
  {
    Gathered(line).done + [Gathered(line).raw]
  }

  /** The parser against the texts collected: each closed stage is what its text says on its
      own, and so is the one being read. */
  ghost predicate Collected(c: Scan, g: Gather, isCommand: string -> bool) {
    c.raw == g.raw && c.words == WordsOf(g.raw) && StagesAre(c.stages, g.done, isCommand)
  }

  lemma CollectStep(c: Scan, m: More, g: Gather, r: char, isCommand: string -> bool)
    requires Same(c, m) && Collected(c, g, isCommand) && Advance(c, r, isCommand).Ok?
    ensures Collected(Advance(c, r, isCommand).value, Collect(g, m, r), isCommand)
  {
    hide TrimSpace, Take, Flush, Clear, StagesAre;
    if Drops(m, r) {
    } else if r == '|' && m.Plain() {
      CollectCut(c, m, g, isCommand);
    } else {
      assert (g.raw + [r])[..|g.raw|] == g.raw;
    }
  }

  lemma CollectCut(c: Scan, m: More, g: Gather, isCommand: string -> bool)
    requires Same(c, m) && Collected(c, g, isCommand) && m.Plain() && !m.comment && Advance(c, '|', isCommand).Ok?
    ensures Collected(Advance(c, '|', isCommand).value, Gather(g.done + [g.raw], ""), isCommand)
  {
    hide TrimSpace, Utf8, WordsOf, StageOf, Take;
    EmptyWords();
    assert c.stages == [] <==> |g.done| == 0;
  }

  lemma {:induction false} ParseCollects(line: string, isCommand: string -> bool)
    requires Scanned(line, isCommand).Ok?
    ensures Collected(Scanned(line, isCommand).value, Gathered(line), isCommand)
  {
    if line != "" {
      var front := line[..|line| - 1];
      ParseCollects(front, isCommand);
      SamePlace(front, isCommand);
      hide Collected, Same, Advance, Collect;
      CollectStep(Scanned(front, isCommand).value, Looked(front), Gathered(front), line[|line| - 1], isCommand);
    } else {
      EmptyWords();
    }
  }

  /** Texts are what Parse reads its stages from, comments or not: as many as it returns, each
      stage being what its text says on its own. */
  lemma StagesHaveTexts(line: string, isCommand: string -> bool)
    requires Capture(line) == None && ParseLine(line, isCommand).Ok? && ParseLine(line, isCommand).value != []
    ensures StagesAre(ParseLine(line, isCommand).value, Texts(line), isCommand)
  {
    hide Capture, Scanned, Gathered, TrimSpace, Flush, WordsOf;
    ParseCollects(line, isCommand);
  }

  /** The words a text is read as. */
  function ArgvIn(text: string): seq<string> { Flush(WordsOf(text)).argv }

  /** Which stages are commands: the first, and just those later ones whose first word is a
      registered command.  A command's words are its text's; a jq stage is its text, trimmed. */
  lemma StageKinds(line: string, isCommand: string -> bool, k: nat)
    requires Capture(line) == None && ParseLine(line, isCommand).Ok? && k < |ParseLine(line, isCommand).value|
    ensures |Texts(line)| == |ParseLine(line, isCommand).value|
    ensures var st, text := ParseLine(line, isCommand).value[k], Texts(line)[k];
            && (st.Command? <==> k == 0 || (ArgvIn(text) != [] && isCommand(ArgvIn(text)[0])))
            && (st.Command? ==> st.argv == ArgvIn(text) && st.capture == "")
            && (st.Jq? ==> st.expr == TrimSpace(text))
  {
    hide Capture, Texts, ParseLine, TrimSpace, WordsOf, Flush;
    StagesHaveTexts(line, isCommand);
    var text := Texts(line)[k];
    assert StageOf(WordsOf(text), text, k == 0, isCommand) == Ok(ParseLine(line, isCommand).value[k]);
  }

  /** How many runes of a line Parse drops. */
  function Dropped(line: string): nat {
    if line == "" then 0
    else Dropped(line[..|line| - 1]) + if Drops(Looked(line[..|line| - 1]), line[|line| - 1]) then 1 else 0
  }

  lemma CollectGrows(g: Gather, m: More, r: char)
    ensures Joined(Collect(g, m, r).done + [Collect(g, m, r).raw]) == Joined(g.done + [g.raw]) + if Drops(m, r) then "" else [r]
  {
    if Drops(m, r) {
      assert Joined(g.done + [g.raw]) + "" == Joined(g.done + [g.raw]);
    } else if r == '|' && m.Plain() {
      JoinedMore(g.done + [g.raw], "");
      hide Joined;
      assert Joined(g.done + [g.raw]) + "|" + "" == Joined(g.done + [g.raw]) + ['|'];
    } else {
      JoinedLast(g.done, g.raw, [r]);
    }
  }

  lemma {:induction false} TextsAreShorter(line: string)
    ensures |Joined(Texts(line))| + Dropped(line) == |line|
  {
    if line != "" {
      var front := line[..|line| - 1];
      TextsAreShorter(front);
      CollectGrows(Gathered(front), Looked(front), line[|line| - 1]);
      hide Joined, Collect, Looked;
    }
  }

  lemma {:induction false} NothingDroppedIff(line: string)
    ensures Dropped(line) == 0 <==> CommentFree(line)
  {
    if line != "" {
      var front, r := line[..|line| - 1], line[|line| - 1];
      NothingDroppedIff(front);
      CommentFreeSnoc(line);
      FreeNow(front);
      assert Looked(line) == Look(Looked(front), r);
      hide Looked, CommentFree;
      assert !Looked(front).comment ==> (Look(Looked(front), r).comment <==> Drops(Looked(front), r));
    }
  }

  lemma FreeNow(line: string)
    ensures CommentFree(line) ==> !Looked(line).comment
  {
    hide Looked;
    assert line[..|line|] == line;
  }

  lemma CommentFreeSnoc(line: string)
    requires line != ""
    ensures CommentFree(line) <==> CommentFree(line[..|line| - 1]) && !Looked(line).comment
  {
    hide Looked;
    var front := line[..|line| - 1];
    assert line[..|line|] == line;
    if CommentFree(line) {
      FrontIsFree(line);
    }
    assert forall k :: 0 <= k <= |front| ==> front[..k] == line[..k];
  }

  lemma {:induction false} FreeTexts(line: string)
    requires CommentFree(line)
    ensures Gathered(line).done == CutAll(line).done && Gathered(line).raw == CutAll(line).piece
  {
    if line != "" {
      var front, r := line[..|line| - 1], line[|line| - 1];
      FrontIsFree(line);
      FreeTexts(front);
      SameQuotes(front);
      NothingDroppedIff(line);
      hide Looked, CommentFree;
      assert !Drops(Looked(front), r);
    }
  }

  /** Exactly when splitStages' pieces are the texts Parse reads its stages from: on the
      lines without comments. */
  lemma PiecesAreTextsIff(line: string)
    ensures Pieces(line) == Texts(line) <==> CommentFree(line)
  {
    if CommentFree(line) {
      FreeTexts(line);
    } else {
      TextsAreShorter(line);
      NothingDroppedIff(line);
      Rejoin(line);
    }
  }

  // ---------------------------------------------------------------- where the cuts are

  /** Where Parse ends a stage. */
  function ParseCuts(line: string): seq<nat> {
    if line == "" then []
    else
      var n := |line| - 1;
      var m := Looked(line[..n]);
      ParseCuts(line[..n]) + if line[n] == '|' && m.Plain() && !Drops(m, '|') then [n] else []
  }

  /** Where splitStages cuts. */
  function SplitCuts(line: string): seq<nat> {
    if line == "" then []
    else
      var n := |line| - 1;
      var p := CutAll(line[..n]);
      SplitCuts(line[..n]) + if line[n] == '|' && p.quote == Unquoted && !p.escaped then [n] else []
  }

  /** There is a cut between every two stages, and every two pieces. */
  lemma {:induction false} CutsCount(line: string)
    ensures |Texts(line)| == |ParseCuts(line)| + 1 && |Pieces(line)| == |SplitCuts(line)| + 1
  {
    if line != "" {
      CutsCount(line[..|line| - 1]);
      hide Looked;
    }
  }

  /** No comment of the line holds a pipe, a quote or a backslash. */
  ghost predicate QuietComments(line: string) {
    forall k :: 0 <= k < |line| && Drops(Looked(line[..k]), line[k]) ==> line[k] !in ['|', '\'', '"', '\\']
  }

  lemma QuietFront(line: string)
    requires QuietComments(line) && line != ""
    ensures QuietComments(line[..|line| - 1])
    ensures Drops(Looked(line[..|line| - 1]), line[|line| - 1]) ==> line[|line| - 1] !in ['|', '\'', '"', '\\']
  {
    hide Looked, Drops;
    var front := line[..|line| - 1];
    assert forall k :: 0 <= k < |front| ==> front[..k] == line[..k];
  }

  lemma QuietStep(m: More, p: Split, r: char)
    requires m.quote == p.quote && m.escaped == p.escaped && (m.comment ==> m.Plain())
    requires Drops(m, r) ==> r !in ['|', '\'', '"', '\\']
    ensures Look(m, r).quote == Cut(p, r).quote && Look(m, r).escaped == Cut(p, r).escaped && (Look(m, r).comment ==> Look(m, r).Plain())
    ensures (r == '|' && m.Plain() && !Drops(m, '|')) <==> (r == '|' && p.quote == Unquoted && !p.escaped)
  {
    var special := ['|', '\'', '"', '\\'];
    assert special[0] == '|' && special[1] == '\'' && special[2] == '"' && special[3] == '\\';
  }

  lemma {:induction false} QuietCuts(line: string)
    requires QuietComments(line)
    ensures ParseCuts(line) == SplitCuts(line)
    ensures var m, p := Looked(line), CutAll(line); m.quote == p.quote && m.escaped == p.escaped && (m.comment ==> m.Plain())
  {
    if line != "" {
      var front, r := line[..|line| - 1], line[|line| - 1];
      QuietFront(line);
      QuietCuts(front);
      QuietStep(Looked(front), CutAll(front), r);
      hide Look, Cut, QuietComments, Drops;
    }
  }

  /** A comment without pipes, quotes and backslashes keeps splitStages' cuts where Parse
      ends its stages: as many pieces as stages. */
  lemma QuietCommentsKeepTheCuts(line: string, isCommand: string -> bool)
    requires QuietComments(line)
    ensures SplitCuts(line) == ParseCuts(line) && |Pieces(line)| == |Texts(line)|
    ensures Capture(line) == None && ParseLine(line, isCommand).Ok? && ParseLine(line, isCommand).value != [] ==>
              |Pieces(line)| == |ParseLine(line, isCommand).value|
  {
    hide Capture, ParseLine, Pieces, Texts, ParseCuts, SplitCuts, QuietComments;
    QuietCuts(line);
    CutsCount(line);
    if Capture(line) == None && ParseLine(line, isCommand).Ok? && ParseLine(line, isCommand).value != [] {
      StagesHaveTexts(line, isCommand);
    }
  }

  /** A comment is where they part: Parse drops it, pipe and all, and splitStages cuts it. */
  lemma CommentHidesAPipe(isCommand: string -> bool)
    ensures ParseLine("a #|", isCommand) == Ok([Command(["a"], None, "")])
    ensures Pieces("a #|") == ["a #", ""]
  {
    var line := "a #|";
    hide Stages, Capture, Pieces;
    CommentScanned(line, isCommand);
    CommentCut(line);
    assert Capture(line) == None by {
      CommentNoCapture();
    }
  }

  lemma CommentNoCapture()
    ensures Capture("a #|") == None
  {
    assert WordOf("a #|") == ['a'] + WordOf("a #|"[1..]);
  }

  lemma CommentCut(line: string)
    requires line == "a #|"
    ensures Pieces(line) == ["a #", ""]
  {
    CutSnoc(line, 0);
    CutSnoc(line, 1);
    CutSnoc(line, 2);
    CutSnoc(line, 3);
    assert line[..0] == "" && line[..4] == line;
    hide CutAll;
    assert CutAll("") == Split([], "", Unquoted, false) by { CutEmpty(); }
    assert CutAll(line[..3]).piece == "a #";
  }

  lemma CutEmpty()
    ensures CutAll("") == Split([], "", Unquoted, false)
  {
  }

  /** Having read "a", and having read "a ". */
  const READ_A := NO_WORDS.(cur := "a", hasWord := true)
  const READ_WORD := NO_WORDS.(argv := ["a"], dollarOf := [[]])

  lemma CommentWords()
    ensures Take(NO_WORDS, 'a') == READ_A && Take(READ_A, ' ') == READ_WORD
  {
    assert "" + Utf8('a') == "a" && [] + ["a"] == ["a"];
    assert READ_A.argv + [READ_A.cur] == READ_WORD.argv && READ_A.dollarOf + [READ_A.dollars] == READ_WORD.dollarOf;
  }

  lemma CommentBegins(line: string, isCommand: string -> bool)
    requires |line| > 3 && line[0] == 'a' && line[1] == ' ' && line[2] == '#'
    ensures Scanned(line[..3], isCommand) == Ok(Scan([], READ_WORD, "a ", true))
  {
    ScannedEmpty(isCommand);
    ScannedSnoc(line, 0, isCommand);
    ScannedSnoc(line, 1, isCommand);
    ScannedSnoc(line, 2, isCommand);
    CommentWords();
    assert line[..0] == "" && "" + ['a'] == "a" && "a" + [' '] == "a ";
    hide Scanned, TrimSpace, Take;
    assert Scanned(line[..1], isCommand) == Ok(Scan([], READ_A, "a", false));
    assert Scanned(line[..2], isCommand) == Ok(Scan([], READ_WORD, "a ", false));
  }

  lemma CommentScanned(line: string, isCommand: string -> bool)
    requires line == "a #|"
    ensures Stages(line, isCommand) == Ok([Command(["a"], None, "")])
  {
    CommentBegins(line, isCommand);
    ScannedSnoc(line, 3, isCommand);
    assert line[..4] == line;
    hide Scanned, TrimSpace, Take;
    assert [] + [Command(["a"], None, "")] == [Command(["a"], None, "")];
  }

  /** An apostrophe in the comment of a continued line: to Parse the comment ends with its
      line, and splitStages has a quote open to the end. */
  lemma CommentOpensAQuote(isCommand: string -> bool)
    requires !isCommand(".b")
    ensures ParseLine(QUOTE_LINE, isCommand) == Ok([Command(["a"], None, ""), Jq(".b")])
    ensures Pieces(QUOTE_LINE) == [QUOTE_LINE]
  {
    hide Stages, Capture, Pieces;
    QuoteScanned(QUOTE_LINE, isCommand);
    QuoteNoCut(QUOTE_LINE);
    assert Capture(QUOTE_LINE) == None by {
      QuoteNoCapture();
    }
  }

  const QUOTE_LINE := "a #'\n|.b"

  lemma QuoteNoCapture()
    ensures Capture(QUOTE_LINE) == None
  {
    assert WordOf(QUOTE_LINE) == ['a'] + WordOf(QUOTE_LINE[1..]);
  }

  lemma QuoteNoCut(line: string)
    requires line == QUOTE_LINE
    ensures Pieces(line) == [line]
  {
    assert CutAll(line[..0]) == Split([], "", Unquoted, false) by { CutEmpty(); }
    assert line[0] == 'a' && line[1] == ' ' && line[2] == '#' && line[3] == '\'';
    assert line[4] == '\n' && line[5] == '|' && line[6] == '.' && line[7] == 'b';
    assert line[..8] == line;
    hide CutAll;
    for i := 0 to 8
      invariant CutAll(line[..i]) == Split([], line[..i], if i < 4 then Unquoted else InSingle, false)
    {
      OneRuneCut(line, i, if i < 4 then Unquoted else InSingle);
    }
  }

  /** Unquoted, a rune that is no pipe, double quote or backslash is taken into the piece, and
      an apostrophe opens a quote; within it, all but an apostrophe is taken. */
  lemma OneRuneCut(line: string, i: nat, q: Quote)
    requires i < |line| && q != InDouble && CutAll(line[..i]) == Split([], line[..i], q, false)
    requires if q == Unquoted then line[i] != '\\' && line[i] != '"' && line[i] != '|' else line[i] != '\''
    ensures CutAll(line[..i + 1]) == Split([], line[..i + 1], if line[i] == '\'' then InSingle else q, false)
  {
    CutSnoc(line, i);
    hide CutAll;
    assert line[..i + 1] == line[..i] + [line[i]];
  }

  /** Having read ".b". */
  const READ_DOT := NO_WORDS.(cur := ".", hasWord := true)
  const READ_DOT_B := NO_WORDS.(cur := ".b", hasWord := true)

  lemma QuoteWords()
    ensures Take(NO_WORDS, '.') == READ_DOT && Take(READ_DOT, 'b') == READ_DOT_B
  {
    assert "" + Utf8('.') == "." && "." + Utf8('b') == ".b";
    hide Utf8;
  }

  lemma QuoteNewline()
    ensures Take(READ_WORD, '\n') == READ_WORD
  {
  }

  lemma QuoteTrims()
    ensures TrimSpace(".b") == ".b"
  {
    TrimmedAlready(".b");
  }

  lemma QuoteScanned(line: string, isCommand: string -> bool)
    requires line == QUOTE_LINE && !isCommand(".b")
    ensures Stages(line, isCommand) == Ok([Command(["a"], None, ""), Jq(".b")])
  {
    QuoteSecond(line, isCommand);
    QuoteTrims();
    assert line[..8] == line && [] + [".b"] == [".b"];
    hide Scanned, TrimSpace, Take;
    assert [Command(["a"], None, "")] + [Jq(".b")] == [Command(["a"], None, ""), Jq(".b")];
  }

  lemma QuoteSecond(line: string, isCommand: string -> bool)
    requires line == QUOTE_LINE
    ensures Scanned(line[..8], isCommand) == Ok(Scan([Command(["a"], None, "")], READ_DOT_B, ".b", false))
  {
    QuoteFirst(line, isCommand);
    ScannedSnoc(line, 6, isCommand);
    ScannedSnoc(line, 7, isCommand);
    QuoteWords();
    assert "" + ['.'] == "." && "." + ['b'] == ".b";
    hide Scanned, TrimSpace, Take;
  }

  lemma QuoteFirst(line: string, isCommand: string -> bool)
    requires line == QUOTE_LINE
    ensures Scanned(line[..6], isCommand) == Ok(Scan([Command(["a"], None, "")], NO_WORDS, "", false))
  {
    QuoteLineEnd(line, isCommand);
    ScannedSnoc(line, 5, isCommand);
    assert line[5] == '|' && [] + [Command(["a"], None, "")] == [Command(["a"], None, "")];
    hide Scanned, TrimSpace, Take;
  }

  lemma QuoteLineEnd(line: string, isCommand: string -> bool)
    requires line == QUOTE_LINE
    ensures Scanned(line[..5], isCommand) == Ok(Scan([], READ_WORD, "a \n", false))
  {
    CommentBegins(line, isCommand);
    ScannedSnoc(line, 3, isCommand);
    ScannedSnoc(line, 4, isCommand);
    QuoteNewline();
    assert line[3] == '\'' && line[4] == '\n' && "a " + ['\n'] == "a \n";
    hide Scanned, TrimSpace, Take;
  }
}
