/** What the parser promises about words and marks, and how a word is written so that it
    comes through the shell as it is. */
module ShellQuoting {
  import opened Wrappers
  import opened ShellText
  import opened ShellParse
  import opened ShellScanners
  import opened ShellExpand
  import opened ShellWords

  // ---------------------------------------------------------------- marks

  /** Offsets of "$", strictly increasing, inside the word. */
  predicate Marks(word: string, marks: seq<nat>) {
    && (forall k :: 0 <= k < |marks| ==> marks[k] < |word| && word[marks[k]] == '$')
    && (forall j, k :: 0 <= j < k < |marks| ==> marks[j] < marks[k])
  }

  /** A stage being read: its finished words and the one under way are marked properly, and
      text that has made no word is blank. */
  predicate WellRead(w: Words, raw: string) {
    && |w.dollarOf| == |w.argv|
    && (forall k :: 0 <= k < |w.argv| ==> Marks(w.argv[k], w.dollarOf[k]))
    && Marks(w.cur, w.dollars)
    && (w.argv == [] && !w.hasWord && !w.escaped ==> Blank(raw))
    && (w.quote != Unquoted ==> w.hasWord)
    && (!w.hasWord ==> w.cur == "" && w.dollars == [])
  }

  /** A stage as Parse hands it on. */
  predicate WellMarked(st: Stage) {
    st.Command? ==>
      && st.argv != []
      && (st.marks.Some? ==>
            && |st.marks.value| == |st.argv|
            && forall k :: 0 <= k < |st.argv| ==> Marks(st.argv[k], st.marks.value[k]))
  }

  lemma MarksGrow(word: string, marks: seq<nat>, r: char)
    requires Marks(word, marks)
    ensures Marks(word + Utf8(r), marks)
    ensures r == '$' ==> Marks(word + Utf8(r), marks + [|word|])
  {
  }

  lemma WriteReads(w: Words, raw: string, r: char, literal: bool)
    requires WellRead(w, raw)
    ensures WellRead(Write(w, r, literal), raw + [r])
  {
    MarksGrow(w.cur, w.dollars, r);
    hide Utf8, Marks;
  }

  lemma TakeReads(w: Words, raw: string, r: char)
    requires WellRead(w, raw)
    ensures WellRead(Take(w, r), raw + [r])
  {
    WriteReads(w, raw, r, true);
    WriteReads(w, raw, r, false);
    hide Write, Marks;
    assert Marks("", []) by {
      NoMarks();
    }
  }

  lemma NoMarks()
    ensures Marks("", [])
  {
  }

  predicate WellFlushed(f: Words) {
    |f.dollarOf| == |f.argv| && forall k :: 0 <= k < |f.argv| ==> Marks(f.argv[k], f.dollarOf[k])
  }

  lemma NoWordsNoText(w: Words, raw: string)
    requires WellRead(w, raw) && w.Plain()
    ensures Flush(w).argv == [] ==> TrimSpace(raw) == ""
  {
    hide TrimSpace, Marks;
    if Flush(w).argv == [] {
      TrimBlank(raw);
    }
  }

  lemma FlushReads(w: Words, raw: string)
    requires WellRead(w, raw)
    ensures WellFlushed(Flush(w))
  {
    hide Marks, Blank;
  }

  lemma ResetReads(w: Words, raw: string)
    requires WellRead(w, raw) && w.Plain()
    ensures WellRead(Reset(w), "")
  {
    NoMarks();
    hide Marks;
  }

  lemma CloseReads(w: Words, raw: string, first: bool, isCommand: string -> bool)
    requires WellRead(w, raw) && w.Plain() && StageOf(w, raw, first, isCommand).Ok?
    ensures WellMarked(StageOf(w, raw, first, isCommand).value) && WellRead(Reset(w), "")
  {
    hide Marks, TrimSpace, WellRead, WellFlushed, WellMarked, Flush, Reset;
    NoWordsNoText(w, raw);
    FlushReads(w, raw);
    ResetReads(w, raw);
    if Flush(w).argv != [] {
      CommandMarked(Flush(w));
    }
    JqMarked(TrimSpace(raw));
  }

  lemma CommandMarked(f: Words)
    requires WellFlushed(f) && f.argv != []
    ensures WellMarked(Command(f.argv, if f.anyDollar then Some(f.dollarOf) else None, ""))
  {
    hide Marks;
  }

  lemma JqMarked(text: string)
    ensures WellMarked(Jq(text))
  {
  }

  predicate ScanReads(c: Scan) {
    WellRead(c.words, c.raw) && forall k :: 0 <= k < |c.stages| ==> WellMarked(c.stages[k])
  }

  lemma AdvanceReads(c: Scan, r: char, isCommand: string -> bool)
    requires ScanReads(c) && Advance(c, r, isCommand).Ok?
    ensures ScanReads(Advance(c, r, isCommand).value)
  {
    hide WellRead, WellMarked, StageOf, Take, Reset;
    TakeReads(c.words, c.raw, r);
    if c.words.Plain() && StageOf(c.words, c.raw, c.stages == [], isCommand).Ok? {
      CloseReads(c.words, c.raw, c.stages == [], isCommand);
    }
  }

  lemma {:induction false} ScannedReads(line: string, isCommand: string -> bool)
    requires Scanned(line, isCommand).Ok?
    ensures ScanReads(Scanned(line, isCommand).value)
  {
    if line == "" {
      NoMarks();
    } else {
      ScannedReads(line[..|line| - 1], isCommand);
      hide ScanReads, Advance;
      AdvanceReads(Scanned(line[..|line| - 1], isCommand).value, line[|line| - 1], isCommand);
    }
  }

  /** Every command stage Parse returns has a word, and each word's marks are strictly
      increasing offsets of "$" inside it. */
  lemma ParseMarksDollars(line: string, isCommand: string -> bool, k: nat)
    requires ParseLine(line, isCommand).Ok? && k < |ParseLine(line, isCommand).value|
    ensures WellMarked(ParseLine(line, isCommand).value[k])
  {
    hide WellRead, StageOf, Reset;
    if Capture(line) == None {
      var c := Scanned(line, isCommand).value;
      ScannedReads(line, isCommand);
      if StageOf(c.words, c.raw, c.stages == [], isCommand).Ok? && c.words.Plain() {
        CloseReads(c.words, c.raw, c.stages == [], isCommand);
      }
    }
  }

  // ---------------------------------------------------------------- single quotes

  /** A word in single quotes, a quote inside it written '\''. */
  function Escaped(word: string): string {
    if word == "" then ""
    else
      var r := word[|word| - 1];
      Escaped(word[..|word| - 1]) + (if r == '\'' then "'\\''" else [r])
  }

  function Quoted(word: string): string { "'" + Escaped(word) + "'" }

  function QuotedLine(words: seq<string>): string
    requires words != []
  {
    var last := Quoted(words[|words| - 1]);
    if |words| == 1 then last else QuotedLine(words[..|words| - 1]) + " " + last
  }

  /** The offsets of all "$" of a word. */
  function Dollars(word: string): seq<nat> {
    if word == "" then []
    else Dollars(word[..|word| - 1]) + (if word[|word| - 1] == '$' then [|word| - 1] else [])
  }

  function DollarsOf(ws: seq<string>): (ds: seq<seq<nat>>)
    ensures |ds| == |ws| && forall k :: 0 <= k < |ws| ==> ds[k] == Dollars(ws[k])
  {
    seq(|ws|, k requires 0 <= k < |ws| => Dollars(ws[k]))
  }

  lemma {:induction false} DollarsAppend(word: string, b: string)
    ensures |b| > 0 && (forall k :: 0 <= k < |b| ==> b[k] != '$') ==> Dollars(word + b) == Dollars(word)
    ensures Dollars(word + "$") == Dollars(word) + [|word|]
    decreases |b|
  {
    assert (word + "$")[..|word|] == word;
    if |b| > 0 && forall k :: 0 <= k < |b| ==> b[k] != '$' {
      assert (word + b)[..|word + b| - 1] == word + b[..|b| - 1];
      if |b| == 1 {
        assert word + b[..0] == word;
      } else {
        DollarsAppend(word, b[..|b| - 1]);
      }
    }
  }

  lemma DollarsSnoc(word: string, r: char)
    ensures Dollars(word + Utf8(r)) == Dollars(word) + if r == '$' then [|word|] else []
  {
    DollarsAppend(word, Utf8(r));
  }

  /** All "$" of these fragments are left alone. */
  predicate Literal(fs: seq<Fragment>) {
    forall f :: f in fs ==> f.Single? || f.Escape?
  }

  function MarkHere(f: Fragment, n: nat, before: string): seq<nat>
    requires n < |f.Content()|
  {
    if f.Content()[n] == '$' then [|before| + |Bytes(f.Content()[..n])|] else []
  }

  lemma PicksSnoc(f: Fragment, n: nat, before: string, afterQuote: bool)
    requires (f.Single? || f.Escape?) && n < |f.Content()|
    ensures Picks(f, n + 1, |before|, before != "", afterQuote) == Picks(f, n, |before|, before != "", afterQuote) + MarkHere(f, n, before)
    ensures Bytes(f.Content()[..n + 1]) == Bytes(f.Content()[..n]) + Utf8(f.Content()[n])
  {
    hide Utf8, Bytes;
    var s := f.Content();
    InitAndLast(s[..n + 1]);
    assert s[..n + 1][..n] == s[..n];
    BytesSnoc(s[..n], s[n]);
  }

  lemma PicksNone(f: Fragment, before: string, afterQuote: bool)
    ensures Dollars(before + Bytes(f.Content()[..0])) == Dollars(before) + Picks(f, 0, |before|, before != "", afterQuote)
  {
    hide Dollars;
    assert f.Content()[..0] == "" && before + "" == before;
  }

  lemma PicksMore(f: Fragment, n: nat, before: string, afterQuote: bool)
    requires (f.Single? || f.Escape?) && n < |f.Content()|
    requires Dollars(before + Bytes(f.Content()[..n])) == Dollars(before) + Picks(f, n, |before|, before != "", afterQuote)
    ensures Dollars(before + Bytes(f.Content()[..n + 1])) == Dollars(before) + Picks(f, n + 1, |before|, before != "", afterQuote)
  {
    hide Dollars, Utf8, Bytes, Picks;
    var r, bs := f.Content()[n], Bytes(f.Content()[..n]);
    PicksSnoc(f, n, before, afterQuote);
    DollarsSnoc(before + bs, r);
    Associate(before, bs, Utf8(r));
    Associate(Dollars(before), Picks(f, n, |before|, before != "", afterQuote), MarkHere(f, n, before));
  }

  lemma {:induction false} PicksAll(f: Fragment, n: nat, before: string, afterQuote: bool)
    requires (f.Single? || f.Escape?) && n <= |f.Content()|
    ensures Dollars(before + Bytes(f.Content()[..n])) == Dollars(before) + Picks(f, n, |before|, before != "", afterQuote)
  {
    hide Dollars, Bytes, Picks;
    if n == 0 {
      PicksNone(f, before, afterQuote);
    } else {
      PicksAll(f, n - 1, before, afterQuote);
      PicksMore(f, n - 1, before, afterQuote);
    }
  }

  /** Written so, a word has every "$" marked. */
  lemma {:induction false} LiteralMarks(fs: seq<Fragment>)
    requires Literal(fs)
    ensures MarksIn(fs) == Dollars(Bytes(ContentOf(fs)))
  {
    if fs != [] {
      var front, f := fs[..|fs| - 1], fs[|fs| - 1];
      assert f in fs && Literal(front) && f.Content()[..|f.Content()|] == f.Content();
      LiteralMarks(front);
      InitAndLast(fs);
      ContentSnoc(front, f);
      PicksAll(f, |f.Content()|, Bytes(ContentOf(front)), AfterQuote(front));
    }
  }

  /** The fragments of a single-quoted word: what stands between its quotes, each quote of
      its own written with a backslash. */
  function QuoteFragments(word: string): (fs: seq<Fragment>)
    ensures fs != [] && fs[|fs| - 1].Single?
  {
    if word == "" then [Single("")]
    else
      var front, r := QuoteFragments(word[..|word| - 1]), word[|word| - 1];
      var n := |front| - 1;
      if r == '\'' then front + [Escape('\''), Single("")] else front[..n] + [Single(front[n].s + [r])]
  }

  /** The text of fragments that end in single quotes, but for the last quote. */
  function Opened(fs: seq<Fragment>): string
    requires fs != [] && fs[|fs| - 1].Single?
  {
    TextOf(fs[..|fs| - 1]) + ("'" + fs[|fs| - 1].s)
  }

  lemma OpenedText(fs: seq<Fragment>)
    requires fs != [] && fs[|fs| - 1].Single?
    ensures TextOf(fs) == Opened(fs) + "'"
  {
    var front, f := fs[..|fs| - 1], fs[|fs| - 1];
    Associate(TextOf(front), "'" + f.s, "'");
    hide TextOf;
    InitAndLast(fs);
    TextSnoc(front, f);
  }

  lemma QuoteText(fs: seq<Fragment>)
    requires fs != []
    ensures Opened(fs + [Escape('\''), Single("")]) == TextOf(fs) + "\\'" + "'"
    ensures ContentOf(fs + [Escape('\''), Single("")]) == ContentOf(fs) + "'" + ""
  {
    var one := fs + [Escape('\'')];
    var two := one + [Single("")];
    assert fs + [Escape('\''), Single("")] == two && two[..|one|] == one;
    TextSnoc(fs, Escape('\''));
    TextSnoc(one, Single(""));
    hide TextOf, ContentOf;
    assert "'" + "" == "'";
  }

  lemma QuoteTail(o: string)
    ensures (o + "'") + "\\'" + "'" == o + "'\\''"
  {
  }

  lemma QuoteInside(fs: seq<Fragment>)
    requires fs != [] && fs[|fs| - 1].Single?
    ensures Opened(fs + [Escape('\''), Single("")]) == Opened(fs) + "'\\''"
    ensures ContentOf(fs + [Escape('\''), Single("")]) == ContentOf(fs) + "'"
  {
    OpenedText(fs);
    QuoteText(fs);
    hide TextOf, ContentOf, Opened;
    QuoteTail(Opened(fs));
    assert ContentOf(fs) + "'" + "" == ContentOf(fs) + "'";
  }

  lemma RuneInside(front: seq<Fragment>, s: string, r: char)
    ensures Opened(front + [Single(s + [r])]) == Opened(front + [Single(s)]) + [r]
    ensures ContentOf(front + [Single(s + [r])]) == ContentOf(front + [Single(s)]) + [r]
  {
    TextSnoc(front, Single(s + [r]));
    TextSnoc(front, Single(s));
    Associate("'", s, [r]);
    Associate(TextOf(front), "'" + s, [r]);
    Associate(ContentOf(front), s, [r]);
    hide TextOf, ContentOf;
    assert (front + [Single(s + [r])])[..|front|] == front && (front + [Single(s)])[..|front|] == front;
  }

  lemma {:induction false} QuotesAreLegal(word: string)
    ensures LegalWord(QuoteFragments(word)) && Literal(QuoteFragments(word))
  {
    if word != "" {
      var front, r := QuoteFragments(word[..|word| - 1]), word[|word| - 1];
      QuotesAreLegal(word[..|word| - 1]);
      assert front[|front| - 1].Legal(|front| == 1);
    }
  }

  lemma {:induction false} QuotedContent(word: string)
    ensures ContentOf(QuoteFragments(word)) == word
    ensures Opened(QuoteFragments(word)) == "'" + Escaped(word)
  {
    if word == "" {
      QuotedNothing();
    } else {
      var w, r := word[..|word| - 1], word[|word| - 1];
      var front := QuoteFragments(w);
      QuotedContent(w);
      InitAndLast(word);
      Associate("'", Escaped(w), if r == '\'' then "'\\''" else [r]);
      hide TextOf, ContentOf, Opened;
      if r == '\'' {
        QuoteInside(front);
      } else {
        InitAndLast(front);
        RuneInside(front[..|front| - 1], front[|front| - 1].s, r);
      }
    }
  }

  lemma QuotedNothing()
    ensures ContentOf([Single("")]) == "" && Opened([Single("")]) == "'" + ""
  {
    assert [Single("")][..0] == [];
  }

  lemma QuotedIsFragments(word: string)
    ensures var fs := QuoteFragments(word); LegalWord(fs) && Literal(fs) && ContentOf(fs) == word
    ensures TextOf(QuoteFragments(word)) == Quoted(word)
  {
    hide TextOf, ContentOf, Opened, QuoteFragments;
    QuotesAreLegal(word);
    QuotedContent(word);
    OpenedText(QuoteFragments(word));
  }

  function Fragmented(words: seq<string>): (ws: seq<seq<Fragment>>)
    ensures |ws| == |words| && forall k :: 0 <= k < |words| ==> ws[k] == QuoteFragments(words[k])
  {
    seq(|words|, k requires 0 <= k < |words| => QuoteFragments(words[k]))
  }

  lemma {:induction false} QuotedLineIsFragments(words: seq<string>)
    requires words != []
    ensures QuotedLine(words) == LineOf(Fragmented(words))
  {
    var front, last := words[..|words| - 1], words[|words| - 1];
    hide QuoteFragments, Quoted, TextOf, LineOf, ContentOf, LegalWord, Literal;
    QuotedIsFragments(last);
    FragmentedSnoc(front, last);
    InitAndLast(words);
    LineSnoc(Fragmented(front), QuoteFragments(last));
    hide Fragmented;
    if |words| > 1 {
      QuotedLineIsFragments(front);
    }
  }

  lemma FragmentedSnoc(front: seq<string>, last: string)
    ensures Fragmented(front + [last]) == Fragmented(front) + [QuoteFragments(last)]
    ensures Fragmented(front) == [] <==> front == []
  {
    hide QuoteFragments;
  }

  /** What the stage of a quoted line carries: the words, and every "$" of them marked. */
  function QuotedStage(words: seq<string>): Stage {
    var argv := EachBytes(words);
    Command(argv, if forall k :: 0 <= k < |argv| ==> Dollars(argv[k]) == [] then None else Some(DollarsOf(argv)), "")
  }

  lemma {:induction false} QuotedLineStarts(words: seq<string>)
    requires words != []
    ensures QuotedLine(words) != "" && QuotedLine(words)[0] == '\''
  {
    if |words| > 1 {
      QuotedLineStarts(words[..|words| - 1]);
    }
  }

  lemma NotACapture(line: string)
    requires line != "" && line[0] == '\''
    ensures Capture(line) == None
  {
    assert SkipBlanks(line) == line && WordOf(line)[0] == '\'';
  }

  /** Any words at all, written in single quotes, are one command stage of exactly those
      words - however many, and whatever they hold. */
  lemma QuotedWordsParse(words: seq<string>, isCommand: string -> bool)
    requires words != []
    ensures ParseLine(QuotedLine(words), isCommand) == Ok([QuotedStage(words)])
  {
    QuotedLineStarts(words);
    NotACapture(QuotedLine(words));
    QuotedLineIsFragments(words);
    hide Capture, QuotedLine, LineOf, ParseLine, Dollars, Bytes, TextOf, MarksIn, ContentOf;
    FragmentedWords(words);
    WrittenWordsParse(Fragmented(words), isCommand);
  }

  lemma FragmentedWords(words: seq<string>)
    ensures var ws := Fragmented(words);
            && (forall k :: 0 <= k < |ws| ==> LegalWord(ws[k]))
            && Command(ArgvOf(ws), if AnyMark(ws) then Some(AllMarks(ws)) else None, "") == QuotedStage(words)
  {
    hide Dollars, Bytes, TextOf, MarksIn, ContentOf, LegalWord, Opened;
    var ws := Fragmented(words);
    forall k | 0 <= k < |ws|
      ensures LegalWord(ws[k]) && ContentOf(ws[k]) == words[k] && MarksIn(ws[k]) == Dollars(Bytes(words[k]))
    {
      QuotedIsFragments(words[k]);
      LiteralMarks(ws[k]);
    }
    assert ArgvOf(ws) == EachBytes(words);
    assert AllMarks(ws) == DollarsOf(EachBytes(words));
  }

  // ---------------------------------------------------------------- and expanded

  lemma {:induction false} DollarsAreAll(word: string)
    ensures AllMarked(word, Dollars(word))
  {
    if word != "" {
      DollarsAreAll(word[..|word| - 1]);
    }
  }

  /** Quoted words come through expansion with every "$$" collapsed, so unchanged exactly
      when none of them holds two adjacent "$". */
  lemma QuotedWordsExpand(words: seq<string>, env: Env, k: nat)
    requires k < |words|
    ensures var st := QuotedStage(words);
            var out := Values(Tokens(st.argv[k], MarksOf(st.marks, k), 0), env);
            out == Ok(Collapsed(Bytes(words[k]))) && (out == Ok(Bytes(words[k])) <==> NoPair(Bytes(words[k])))
  {
    var st := QuotedStage(words);
    var word := Bytes(words[k]);
    DollarsAreAll(word);
    assert MarksOf(st.marks, k) == Dollars(word);
    MarkedCollapses(word, Dollars(word), env, 0);
    MarkedWordKept(word, Dollars(word), env);
    assert word[0..] == word;
  }

  lemma {:induction false} QuotedWordsKept(words: seq<string>, env: Env)
    ensures ExpandsTo(QuotedStage(words).argv, QuotedStage(words).marks, env, EachBytes(words)) <==>
            forall k :: 0 <= k < |words| ==> NoPair(Bytes(words[k]))
  {
    var st, out := QuotedStage(words), EachBytes(words);
    forall k | 0 <= k < |words|
      ensures Values(Tokens(st.argv[k], MarksOf(st.marks, k), 0), env) == Ok(out[k]) <==> NoPair(Bytes(words[k]))
    {
      QuotedWordsExpand(words, env, k);
    }
    if ExpandsTo(st.argv, st.marks, env, out) {
      forall k | 0 <= k < |words|
        ensures NoPair(Bytes(words[k]))
      {
        assert Values(Tokens(st.argv[k], MarksOf(st.marks, k), 0), env) == Ok(out[k]);
      }
    }
    if forall k :: 0 <= k < |words| ==> NoPair(Bytes(words[k])) {
      forall k | 0 <= k < |st.argv|
        ensures Values(Tokens(st.argv[k], MarksOf(st.marks, k), 0), env) == Ok(out[k])
      {
        assert NoPair(Bytes(words[k]));
      }
      assert ExpandsTo(st.argv, st.marks, env, out);
    }
    assert ExpandsTo(QuotedStage(words).argv, QuotedStage(words).marks, env, EachBytes(words)) == ExpandsTo(st.argv, st.marks, env, out);
  }

  lemma CollapseTwo()
    ensures Collapsed("$$") == "$" && Bytes("$$") == "$$"
  {
    assert "$$"[2..] == "" && "$$"[..1] == "$" && "$"[..0] == "";
    assert "$" + Collapsed("") == "$";
  }

  /** A word of two "$" in single quotes loses one. */
  lemma TwoDollarsLoseOne(env: Env)
    ensures var st := QuotedStage(["$$"]); st.argv == ["$$"] && Values(Tokens("$$", MarksOf(st.marks, 0), 0), env) == Ok("$")
  {
    CollapseTwo();
    QuotedWordsExpand(["$$"], env, 0);
    assert QuotedStage(["$$"]).argv == ["$$"];
  }

  // ---------------------------------------------------------------- captures

  predicate Blanks(s: string) { forall k :: 0 <= k < |s| ==> s[k] == ' ' || s[k] == '\t' }

  predicate Unbroken(w: string) { w != "" && forall k :: 0 <= k < |w| ==> w[k] != ' ' && w[k] != '\t' }

  lemma {:induction false} WordEnds(w: string, rest: string)
    requires (forall k :: 0 <= k < |w| ==> !IsBlank(w[k])) && (rest == "" || IsBlank(rest[0]))
    ensures WordOf(w + rest) == w
  {
    if w == "" {
      assert w + rest == rest;
    } else {
      WordEnds(w[1..], rest);
      assert (w + rest)[1..] == w[1..] + rest;
      assert w == [w[0]] + w[1..];
    }
  }

  lemma {:induction false} CutsWord(lead: string, w: string, rest: string)
    requires Blanks(lead) && Unbroken(w) && (rest == "" || IsBlank(rest[0]))
    ensures CutWord(lead + w + rest) == Some((w, rest))
  {
    if lead == "" {
      WordEnds(w, rest);
      assert lead + w + rest == w + rest;
      assert SkipBlanks(w + rest) == w + rest;
    } else {
      CutsWord(lead[1..], w, rest);
      assert (lead + w + rest)[1..] == lead[1..] + w + rest;
    }
  }

  /** "set <name> = <pipeline>", however it is spaced, keeps the pipeline as it was typed,
      whatever pipes, quotes, comments or "$" it holds. */
  lemma CaptureKeepsThePipeline(a: string, b: string, name: string, c: string, text: string, isCommand: string -> bool)
    requires Blanks(a) && Blanks(b) && Blanks(c) && b != "" && c != "" && IsVarName(name)
    requires text != "" && text[0] in " \t" && TrimSpace(text) != ""
    ensures ParseLine(a + "set" + (b + name + (c + "=" + text)), isCommand) == Ok([Command(["set", name, "="], None, TrimSpace(text))])
  {
    hide TrimSpace, WordOf, SkipBlanks, CutWord;
    CutsWord(a, "set", b + name + (c + "=" + text));
    CutsWord(b, name, c + "=" + text);
    CutsWord(c, "=", text);
  }

  lemma {:induction false} BlanksSkipped(s: string)
    ensures Blanks(s[..|s| - |SkipBlanks(s)|]) && s[|s| - |SkipBlanks(s)|..] == SkipBlanks(s)
    ensures SkipBlanks(s) != "" ==> !IsBlank(SkipBlanks(s)[0])
  {
    if s != "" && IsBlank(s[0]) {
      BlanksSkipped(s[1..]);
    }
  }

  lemma {:induction false} WordIsUnbroken(s: string)
    ensures forall k :: 0 <= k < |WordOf(s)| ==> !IsBlank(s[k])
    ensures |WordOf(s)| < |s| ==> IsBlank(s[|WordOf(s)|])
  {
    if s != "" && !IsBlank(s[0]) {
      WordIsUnbroken(s[1..]);
    }
  }

  /** A word that was cut stood after blanks, unbroken, before a blank or the end. */
  lemma CutFrom(s: string) returns (lead: string)
    requires CutWord(s).Some?
    ensures var (w, rest) := CutWord(s).value;
            s == lead + w + rest && Blanks(lead) && Unbroken(w) && (rest == "" || IsBlank(rest[0]))
  {
    var t := SkipBlanks(s);
    lead := s[..|s| - |t|];
    BlanksSkipped(s);
    WordIsUnbroken(t);
    WordBegins(t);
    hide WordOf, SkipBlanks;
    var w := WordOf(t);
    SplitTwice(s, |lead|, |w|);
  }

  lemma WordBegins(t: string)
    requires t != "" && !IsBlank(t[0])
    ensures WordOf(t) != ""
  {
  }

  lemma SplitTwice(s: string, i: nat, n: nat)
    requires i + n <= |s|
    ensures s == s[..i] + s[i..][..n] + s[i..][n..]
  {
  }

  /** And nothing else is taken for a capture: it is always "set", a name, "=" and text. */
  lemma CaptureHasItsShape(line: string) returns (a: string, b: string, name: string, c: string, text: string)
    requires Capture(line).Some?
    ensures line == a + "set" + (b + name + (c + "=" + text)) && Blanks(a) && Blanks(b) && Blanks(c) && b != "" && c != ""
    ensures IsVarName(name) && text != "" && text[0] in " \t" && TrimSpace(text) != ""
    ensures Capture(line) == Some(Command(["set", name, "="], None, TrimSpace(text)))
  {
    var afterWord := CutWord(line).value.1;
    var afterName := CutWord(afterWord).value.1;
    name, text := CutWord(afterWord).value.0, CutWord(afterName).value.1;
    a := CutFrom(line);
    b := CutFrom(afterWord);
    c := CutFrom(afterName);
    assert IsBlank(afterWord[0]) && IsBlank(afterName[0]);
    assert TrimSpace("") == "";
  }
}
