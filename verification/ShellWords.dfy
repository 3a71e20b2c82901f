/** How the words of a command are written: every mixture of bare text, single quotes, double
    quotes and backslashes, and what Parse makes of it. */
module ShellWords {
  import opened Wrappers
  import opened ShellText
  import opened ShellParse

  /** One run of a word as it can be written.  `s` and `r` are what it contributes. */
  datatype Fragment = Bare(s: string) | Single(s: string) | Double(s: string) | Escape(r: char) {
    function Content(): string { if Escape? then [r] else s }

    function Text(): string {
      match this
      case Bare(s) => s
      case Single(s) => "'" + s + "'"
      case Double(s) => "\"" + Guarded(s) + "\""
      case Escape(r) => ['\\', r]
    }

    /** Bare text holds nothing with a meaning of its own, and cannot begin a word with "#". */
    predicate Legal(first: bool) {
      match this
      case Bare(s) => s != "" && (forall k :: 0 <= k < |s| ==> s[k] !in " \t\n'\"\\|") && (first ==> s[0] != '#')
      case Single(s) => '\'' !in s
      case _ => true
    }

    /** A "$" at rune k is left alone by expansion: always in single quotes and after a
        backslash; after a double quote that is part of the word or stands inside it. */
    predicate Marks(k: nat, inside: bool, afterQuote: bool)
      requires k < |Content()|
    {
      match this
      case Bare(s) => k == 0 && afterQuote
      case Single(s) => true
      case Double(s) => if k == 0 then inside else s[k - 1] == '"'
      case Escape(_) => true
    }
  }

  /** Inside double quotes a quote and a backslash take a backslash. */
  function Guard(r: char): string { if r == '"' || r == '\\' then ['\\', r] else [r] }

  function Guarded(s: string): string {
    if s == "" then "" else Guarded(s[..|s| - 1]) + Guard(s[|s| - 1])
  }

  /** The marks of the first n runes of f, in a word that has `base` bytes before it. */
  function Picks(f: Fragment, n: nat, base: nat, inside: bool, afterQuote: bool): seq<nat>
    requires n <= |f.Content()|
  {
    if n == 0 then []
    else
      Picks(f, n - 1, base, inside, afterQuote) +
      if f.Content()[n - 1] == '$' && f.Marks(n - 1, inside, afterQuote) then [base + |Bytes(f.Content()[..n - 1])|] else []
  }

  // ---------------------------------------------------------------- a word

  predicate LegalWord(fs: seq<Fragment>) {
    fs != [] && forall k :: 0 <= k < |fs| ==> fs[k].Legal(k == 0)
  }

  function TextOf(fs: seq<Fragment>): string {
    if fs == [] then "" else TextOf(fs[..|fs| - 1]) + fs[|fs| - 1].Text()
  }

  function ContentOf(fs: seq<Fragment>): string {
    if fs == [] then "" else ContentOf(fs[..|fs| - 1]) + fs[|fs| - 1].Content()
  }

  /** The byte offsets of the word's "$" that expansion must leave alone. */
  function MarksIn(fs: seq<Fragment>): seq<nat> {
    if fs == [] then []
    else
      var front, f := fs[..|fs| - 1], fs[|fs| - 1];
      var before := Bytes(ContentOf(front));
      MarksIn(front) + Picks(f, |f.Content()|, |before|, before != "", AfterQuote(front))
  }

  /** The word's last rune is a double quote written with a backslash. */
  predicate AfterQuote(fs: seq<Fragment>) {
    fs != [] && fs[|fs| - 1] == Escape('"')
  }

  lemma TextSnoc(front: seq<Fragment>, f: Fragment)
    ensures TextOf(front + [f]) == TextOf(front) + f.Text() && ContentOf(front + [f]) == ContentOf(front) + f.Content()
  {
    assert (front + [f])[..|front|] == front;
  }

  // ---------------------------------------------------------------- runs of Take

  function TakeAll(w: Words, text: string): Words {
    if text == "" then w else Take(TakeAll(w, text[..|text| - 1]), text[|text| - 1])
  }

  /** In this state r neither ends the stage nor begins a comment. */
  predicate Ordinary(w: Words, r: char) {
    !(r == '|' && w.Plain()) && !(r == '#' && !w.hasWord && w.Plain())
  }

  /** Reading `text` from w leads to v, without a pipe or a comment on the way. */
  ghost predicate Leads(w: Words, text: string, v: Words) {
    TakeAll(w, text) == v && forall k :: 0 <= k < |text| ==> Ordinary(TakeAll(w, text[..k]), text[k])
  }

  lemma {:induction false} TakeAllAppend(w: Words, a: string, b: string)
    ensures TakeAll(w, a + b) == TakeAll(TakeAll(w, a), b)
  {
    if b == "" {
      assert a + b == a;
    } else {
      assert (a + b)[..|a + b| - 1] == a + b[..|b| - 1];
      TakeAllAppend(w, a, b[..|b| - 1]);
    }
  }

  lemma LeadsOn(w: Words, a: string, u: Words, b: string, v: Words)
    requires Leads(w, a, u) && Leads(u, b, v)
    ensures Leads(w, a + b, v)
  {
    TakeAllAppend(w, a, b);
    forall k | 0 <= k < |a + b|
      ensures Ordinary(TakeAll(w, (a + b)[..k]), (a + b)[k])
    {
      if k < |a| {
        assert (a + b)[..k] == a[..k];
      } else {
        assert (a + b)[..k] == a + b[..k - |a|];
        TakeAllAppend(w, a, b[..k - |a|]);
      }
    }
  }

  lemma LeadsNowhere(w: Words)
    ensures Leads(w, "", w)
  {
  }

  lemma LeadsOne(w: Words, r: char)
    requires Ordinary(w, r)
    ensures Leads(w, [r], Take(w, r))
  {
    assert [r][..0] == "" && TakeAll(w, "") == w;
  }

  lemma LeadsTwo(w: Words, r: char, s: char)
    requires Ordinary(w, r) && Ordinary(Take(w, r), s)
    ensures Leads(w, [r, s], Take(Take(w, r), s))
  {
    LeadsOne(w, r);
    LeadsOne(Take(w, r), s);
    LeadsOn(w, [r], Take(w, r), [s], Take(Take(w, r), s));
    assert [r] + [s] == [r, s];
  }

  lemma LeadsFront(text: string)
    requires text != "" && Leads(NO_WORDS, text, TakeAll(NO_WORDS, text))
    ensures var n := |text| - 1;
            var u := TakeAll(NO_WORDS, text[..n]);
            Leads(NO_WORDS, text[..n], u) && Ordinary(u, text[n]) && TakeAll(NO_WORDS, text) == Take(u, text[n])
  {
    hide Ordinary, Take;
    var n := |text| - 1;
    var front := text[..n];
    assert Ordinary(TakeAll(NO_WORDS, text[..n]), text[n]);
    forall k | 0 <= k < n
      ensures Ordinary(TakeAll(NO_WORDS, front[..k]), front[k])
    {
      assert front[..k] == text[..k] && Ordinary(TakeAll(NO_WORDS, text[..k]), text[k]);
    }
  }

  lemma OrdinaryRune(c: Scan, r: char, isCommand: string -> bool)
    requires !c.comment && Ordinary(c.words, r)
    ensures Advance(c, r, isCommand) == Ok(c.(words := Take(c.words, r), raw := c.raw + [r]))
  {
    hide Take, StageOf;
  }

  /** Text read without a pipe or a comment is one stage's. */
  lemma {:induction false} LeadsScan(text: string, isCommand: string -> bool)
    requires Leads(NO_WORDS, text, TakeAll(NO_WORDS, text))
    ensures Scanned(text, isCommand) == Ok(Scan([], TakeAll(NO_WORDS, text), text, false))
  {
    if text != "" {
      var n := |text| - 1;
      LeadsFront(text);
      hide Leads, TakeAll, Take, Ordinary, Advance;
      LeadsScan(text[..n], isCommand);
      OrdinaryRune(Scan([], TakeAll(NO_WORDS, text[..n]), text[..n], false), text[n], isCommand);
      InitAndLast(text);
    }
  }

  // ---------------------------------------------------------------- one fragment

  /** A word under way: outside quotes, and clear if it has not begun. */
  predicate Under(w: Words) {
    w.Plain() && (!w.hasWord ==> w.cur == "" && !w.quotedDollar)
  }

  /** w after the first n runes of f have been written, in the quotes f is written in. */
  function Mid(w: Words, f: Fragment, n: nat): Words
    requires n <= |f.Content()|
  {
    var ms := Picks(f, n, |w.cur|, w.cur != "", w.quotedDollar);
    w.(cur := w.cur + Bytes(f.Content()[..n]),
       dollars := w.dollars + ms,
       anyDollar := w.anyDollar || ms != [],
       hasWord := w.hasWord || n > 0 || f.Single? || f.Double?,
       quotedDollar := if n > 0 then f.Content()[n - 1] == '"' else (f.Double? && w.cur != "") || (f.Bare? && w.quotedDollar),
       quote := if f.Single? then InSingle else if f.Double? then InDouble else Unquoted)
  }

  /** w after the whole of f. */
  function Put(w: Words, f: Fragment): Words {
    Mid(w, f, |f.Content()|).(quote := Unquoted, quotedDollar := f == Escape('"'), hasWord := true)
  }

  /** The mark rune n of f adds. */
  function MarkAt(w: Words, f: Fragment, n: nat): seq<nat>
    requires n < |f.Content()|
  {
    if f.Content()[n] == '$' && f.Marks(n, w.cur != "", w.quotedDollar) then [|w.cur| + |Bytes(f.Content()[..n])|] else []
  }

  lemma OneRuneMore(w: Words, f: Fragment, n: nat)
    requires n < |f.Content()|
    ensures Bytes(f.Content()[..n + 1]) == Bytes(f.Content()[..n]) + Utf8(f.Content()[n])
    ensures Picks(f, n + 1, |w.cur|, w.cur != "", w.quotedDollar) == Picks(f, n, |w.cur|, w.cur != "", w.quotedDollar) + MarkAt(w, f, n)
  {
    hide Bytes, Utf8;
    var s := f.Content();
    BytesSnoc(s[..n], s[n]);
    InitAndLast(s[..n + 1]);
    assert s[..n + 1][..n] == s[..n];
  }

  lemma WriteMid(w: Words, f: Fragment, n: nat, literal: bool)
    requires n < |f.Content()|
    requires f.Content()[n] == '$' ==> (f.Marks(n, w.cur != "", w.quotedDollar) <==> literal || Mid(w, f, n).quotedDollar)
    ensures Write(Mid(w, f, n), f.Content()[n], literal) == Mid(w, f, n + 1)
  {
    var s, m := f.Content(), Mid(w, f, n);
    var ms, mark := Picks(f, n, |w.cur|, w.cur != "", w.quotedDollar), MarkAt(w, f, n);
    OneRuneMore(w, f, n);
    Associate(w.cur, Bytes(s[..n]), Utf8(s[n]));
    Associate(w.dollars, ms, mark);
    hide Utf8, Bytes, Picks, Fragment.Marks;
    MarkAdded(m, s[n], literal, mark);
  }

  lemma MarkAdded(m: Words, r: char, literal: bool, mark: seq<nat>)
    requires mark == if r == '$' && (literal || m.quotedDollar) then [|m.cur|] else []
    ensures Write(m, r, literal) ==
            m.(dollars := m.dollars + mark, anyDollar := m.anyDollar || mark != [], quotedDollar := r == '"',
               cur := m.cur + Utf8(r), hasWord := true)
  {
    hide Utf8;
    assert m.dollars + [] == m.dollars;
  }

  /** One rune of f's content, as it is written. */
  function RuneText(f: Fragment, r: char): string { if f.Double? then Guard(r) else [r] }

  lemma RuneTaken(w: Words, f: Fragment, n: nat)
    requires Under(w) && !f.Escape? && f.Legal(!w.hasWord) && n < |f.Content()|
    ensures Leads(Mid(w, f, n), RuneText(f, f.s[n]), Mid(w, f, n + 1))
  {
    var m, r := Mid(w, f, n), f.s[n];
    assert r in f.s;
    hide Picks, Utf8, Bytes;
    match f
    case Bare(_) =>
      BareRune(w, f, n);
    case Single(_) =>
      WriteMid(w, f, n, true);
      LeadsOne(m, r);
    case Double(_) =>
      DoubleRune(w, f, n);
  }

  lemma BareRune(w: Words, f: Fragment, n: nat)
    requires Under(w) && f.Bare? && f.Legal(!w.hasWord) && n < |f.s|
    ensures Leads(Mid(w, f, n), [f.s[n]], Mid(w, f, n + 1))
  {
    var m, r := Mid(w, f, n), f.s[n];
    assert r !in " \t\n'\"\\|";
    if n > 0 {
      assert f.s[n - 1] !in " \t\n'\"\\|";
    }
    WriteMid(w, f, n, false);
    hide Picks, Utf8, Bytes;
    assert r != ' ' && r != '\t' && r != '\n' && r != '\'' && r != '"' && r != '\\' && r != '|' by {
      var special := " \t\n'\"\\|";
      assert special[0] == ' ' && special[1] == '\t' && special[2] == '\n' && special[3] == '\'';
      assert special[4] == '"' && special[5] == '\\' && special[6] == '|';
    }
    LeadsOne(m, r);
  }

  lemma DoubleRune(w: Words, f: Fragment, n: nat)
    requires Under(w) && f.Double? && n < |f.s|
    ensures Leads(Mid(w, f, n), Guard(f.s[n]), Mid(w, f, n + 1))
  {
    var m, r := Mid(w, f, n), f.s[n];
    hide Picks, Utf8, Bytes;
    if r == '"' || r == '\\' {
      WriteMid(w, f, n, true);
      LeadsTwo(m, '\\', r);
      assert Take(Take(m, '\\'), r) == Write(m, r, true).(escaped := false);
    } else {
      WriteMid(w, f, n, false);
      LeadsOne(m, r);
    }
  }

  /** The content of f up to rune n, as it is written. */
  function ContentText(f: Fragment, n: nat): string
    requires n <= |f.Content()|
  {
    if n == 0 then "" else ContentText(f, n - 1) + RuneText(f, f.Content()[n - 1])
  }

  lemma {:induction false} ContentTaken(w: Words, f: Fragment, n: nat)
    requires Under(w) && !f.Escape? && f.Legal(!w.hasWord) && n <= |f.s|
    ensures Leads(Mid(w, f, 0), ContentText(f, n), Mid(w, f, n))
  {
    hide Mid, Leads, Picks;
    if n == 0 {
      LeadsNowhere(Mid(w, f, 0));
    } else {
      ContentTaken(w, f, n - 1);
      RuneTaken(w, f, n - 1);
      LeadsOn(Mid(w, f, 0), ContentText(f, n - 1), Mid(w, f, n - 1), RuneText(f, f.s[n - 1]), Mid(w, f, n));
    }
  }

  lemma {:induction false} ContentTexts(f: Fragment, n: nat)
    requires !f.Escape? && n <= |f.s|
    ensures ContentText(f, n) == if f.Double? then Guarded(f.s[..n]) else f.s[..n]
  {
    if n > 0 {
      ContentTexts(f, n - 1);
      assert f.s[..n][..n - 1] == f.s[..n - 1] && f.s[..n] == f.s[..n - 1] + [f.s[n - 1]];
    }
  }

  lemma FragmentTaken(w: Words, f: Fragment)
    requires Under(w) && f.Legal(!w.hasWord)
    ensures Leads(w, f.Text(), Put(w, f)) && Under(Put(w, f))
  {
    match f
    case Escape(r) =>
      EscapeTaken(w, f);
    case Bare(s) =>
      ContentTaken(w, f, |s|);
      ContentTexts(f, |s|);
      assert s[..|s|] == s;
      MidNothing(w, f);
      BareEnds(w, f);
    case _ =>
      QuotedTaken(w, f);
  }

  lemma MidNothing(w: Words, f: Fragment)
    requires f.Bare? && w.quote == Unquoted
    ensures Mid(w, f, 0) == w
  {
    assert w.cur + "" == w.cur && w.dollars + [] == w.dollars && f.s[..0] == "";
  }

  lemma BareEnds(w: Words, f: Fragment)
    requires f.Bare? && f.Legal(!w.hasWord)
    ensures Put(w, f) == Mid(w, f, |f.s|)
  {
    hide Picks, Bytes;
    var special := " \t\n'\"\\|";
    assert special[4] == '"' && f.s[|f.s| - 1] !in special;
  }

  lemma EscapeTaken(w: Words, f: Fragment)
    requires Under(w) && f.Escape?
    ensures Leads(w, f.Text(), Put(w, f)) && Under(Put(w, f))
  {
    LeadsTwo(w, '\\', f.r);
    hide Leads;
    EscapePuts(w, f);
  }

  lemma EscapePuts(w: Words, f: Fragment)
    requires Under(w) && f.Escape?
    ensures Take(Take(w, '\\'), f.r) == Put(w, f) && Under(Put(w, f))
  {
    var r, ms := f.r, Picks(f, 1, |w.cur|, w.cur != "", w.quotedDollar);
    assert f.Content()[..1] == [r] && Bytes([r]) == Utf8(r) by {
      BytesOne(r);
    }
    assert ms == if r == '$' then [|w.cur|] else [] by {
      PicksOne(f, |w.cur|, w.cur != "", w.quotedDollar);
    }
    hide Picks, Bytes, Utf8, Fragment.Marks, Fragment.Legal;
    if r != '$' {
      assert w.dollars + [] == w.dollars;
    }
  }

  lemma PicksOne(f: Fragment, base: nat, inside: bool, afterQuote: bool)
    requires f.Escape?
    ensures Picks(f, 1, base, inside, afterQuote) == if f.r == '$' then [base] else []
  {
    var none := Picks(f, 0, base, inside, afterQuote);
    assert none == [] && f.Content()[..0] == "";
    assert none + [base + |Bytes("")|] == [base];
  }

  lemma QuotedTaken(w: Words, f: Fragment)
    requires Under(w) && (f.Single? || f.Double?) && f.Legal(!w.hasWord)
    ensures Leads(w, f.Text(), Put(w, f)) && Under(Put(w, f))
  {
    var n := |f.s|;
    var q := if f.Single? then '\'' else '"';
    var body := if f.Single? then f.s else Guarded(f.s);
    assert f.s[..n] == f.s;
    ContentTexts(f, n);
    ContentTaken(w, f, n);
    Opens(w, f);
    Closes(w, f);
    hide Mid, Put, Leads, Take;
    LeadsOn(w, [q], Mid(w, f, 0), body, Mid(w, f, n));
    LeadsOn(w, [q] + body, Mid(w, f, n), [q], Put(w, f));
  }

  lemma Opens(w: Words, f: Fragment)
    requires Under(w) && (f.Single? || f.Double?)
    ensures Leads(w, [if f.Single? then '\'' else '"'], Mid(w, f, 0))
  {
    LeadsOne(w, if f.Single? then '\'' else '"');
    assert w.cur + "" == w.cur && w.dollars + [] == w.dollars && f.s[..0] == "";
  }

  lemma Closes(w: Words, f: Fragment)
    requires Under(w) && (f.Single? || f.Double?)
    ensures Leads(Mid(w, f, |f.s|), [if f.Single? then '\'' else '"'], Put(w, f)) && Under(Put(w, f))
  {
    hide Picks, Bytes;
    LeadsOne(Mid(w, f, |f.s|), if f.Single? then '\'' else '"');
  }

  // ---------------------------------------------------------------- one word, and many

  /** w with the word fs in it. */
  function Written(w: Words, fs: seq<Fragment>): Words {
    w.(cur := Bytes(ContentOf(fs)), dollars := MarksIn(fs), anyDollar := w.anyDollar || MarksIn(fs) != [],
       hasWord := fs != [], quotedDollar := AfterQuote(fs))
  }

  /** Between words. */
  predicate Fresh(w: Words) {
    w.Plain() && !w.hasWord && w.cur == "" && w.dollars == [] && !w.quotedDollar
  }

  lemma EmptySum<T>(a: seq<T>, b: seq<T>)
    ensures a + b == [] <==> a == [] && b == []
  {
  }

  lemma ContentSnoc(front: seq<Fragment>, f: Fragment)
    ensures Bytes(ContentOf(front + [f])) == Bytes(ContentOf(front)) + Bytes(f.Content())
    ensures var before := Bytes(ContentOf(front));
            MarksIn(front + [f]) == MarksIn(front) + Picks(f, |f.Content()|, |before|, before != "", AfterQuote(front))
  {
    assert (front + [f])[..|front|] == front;
    BytesAppend(ContentOf(front), f.Content());
  }

  lemma PutIs(w: Words, f: Fragment)
    requires w.Plain()
    ensures var ms := Picks(f, |f.Content()|, |w.cur|, w.cur != "", w.quotedDollar);
            Put(w, f) == w.(cur := w.cur + Bytes(f.Content()), dollars := w.dollars + ms, anyDollar := w.anyDollar || ms != [],
                            hasWord := true, quotedDollar := f == Escape('"'))
  {
    assert f.Content()[..|f.Content()|] == f.Content();
    hide Picks, Bytes;
  }

  lemma PutWritten(w: Words, front: seq<Fragment>, f: Fragment)
    requires Fresh(w)
    ensures Put(Written(w, front), f) == Written(w, front + [f])
  {
    PutIs(Written(w, front), f);
    ContentSnoc(front, f);
    assert AfterQuote(front + [f]) <==> f == Escape('"');
    hide Picks, Bytes, MarksIn, ContentOf, Put, AfterQuote;
    var before := Bytes(ContentOf(front));
    EmptySum(MarksIn(front), Picks(f, |f.Content()|, |before|, before != "", AfterQuote(front)));
  }

  lemma {:induction false} WordTaken(w: Words, fs: seq<Fragment>)
    requires Fresh(w) && (fs == [] || LegalWord(fs))
    ensures Leads(w, TextOf(fs), Written(w, fs))
  {
    if fs == [] {
      LeadsNowhere(w);
    } else {
      var front, f := fs[..|fs| - 1], fs[|fs| - 1];
      assert fs == front + [f];
      assert front == [] || LegalWord(front) by {
        forall k | 0 <= k < |front|
          ensures front[k].Legal(k == 0)
        {
          assert front[k] == fs[k];
        }
      }
      WordTaken(w, front);
      assert f.Legal(front == []);
      hide Leads, Put, Fragment.Legal, LegalWord;
      assert Under(Written(w, front));
      FragmentTaken(Written(w, front), f);
      PutWritten(w, front, f);
      LeadsOn(w, TextOf(front), Written(w, front), f.Text(), Written(w, fs));
    }
  }

  /** A command of several words. */
  function LineOf(ws: seq<seq<Fragment>>): string
    requires ws != []
  {
    var last := TextOf(ws[|ws| - 1]);
    if |ws| == 1 then last else LineOf(ws[..|ws| - 1]) + " " + last
  }

  function ArgvOf(ws: seq<seq<Fragment>>): (argv: seq<string>)
    ensures |argv| == |ws| && forall k :: 0 <= k < |ws| ==> argv[k] == Bytes(ContentOf(ws[k]))
  {
    seq(|ws|, k requires 0 <= k < |ws| => Bytes(ContentOf(ws[k])))
  }

  function AllMarks(ws: seq<seq<Fragment>>): (ms: seq<seq<nat>>)
    ensures |ms| == |ws| && forall k :: 0 <= k < |ws| ==> ms[k] == MarksIn(ws[k])
  {
    seq(|ws|, k requires 0 <= k < |ws| => MarksIn(ws[k]))
  }

  predicate AnyMark(ws: seq<seq<Fragment>>) {
    exists k :: 0 <= k < |ws| && MarksIn(ws[k]) != []
  }

  /** After all but the last word of ws, and the space before the last. */
  function Between(ws: seq<seq<Fragment>>): Words {
    NO_WORDS.(argv := ArgvOf(ws), dollarOf := AllMarks(ws), anyDollar := AnyMark(ws))
  }

  lemma ArgvSnoc(ws: seq<seq<Fragment>>, fs: seq<Fragment>)
    ensures ArgvOf(ws + [fs]) == ArgvOf(ws) + [Bytes(ContentOf(fs))]
    ensures AllMarks(ws + [fs]) == AllMarks(ws) + [MarksIn(fs)]
  {
    hide Bytes, ContentOf, MarksIn;
  }

  lemma SpaceTaken(ws: seq<seq<Fragment>>, fs: seq<Fragment>)
    requires fs != []
    ensures Leads(Written(Between(ws), fs), " ", Between(ws + [fs]))
  {
    LeadsOne(Written(Between(ws), fs), ' ');
    hide Leads;
    WordEnds(ws, fs);
  }

  lemma WordEnds(ws: seq<seq<Fragment>>, fs: seq<Fragment>)
    requires fs != []
    ensures Flush(Written(Between(ws), fs)) == Between(ws + [fs])
  {
    AnyMarkSnoc(ws, fs);
    ArgvSnoc(ws, fs);
    hide AnyMark, ArgvOf, AllMarks, Bytes, MarksIn, ContentOf;
  }

  lemma AnyMarkSnoc(ws: seq<seq<Fragment>>, fs: seq<Fragment>)
    ensures AnyMark(ws + [fs]) <==> AnyMark(ws) || MarksIn(fs) != []
  {
    hide MarksIn;
    var more := ws + [fs];
    assert more[|ws|] == fs;
    if k :| 0 <= k < |ws| && MarksIn(ws[k]) != [] {
      assert MarksIn(more[k]) != [];
    }
    if k :| 0 <= k < |more| && MarksIn(more[k]) != [] {
      assert k < |ws| ==> MarksIn(ws[k]) != [];
    }
  }

  lemma LineSnoc(ws: seq<seq<Fragment>>, last: seq<Fragment>)
    ensures LineOf(ws + [last]) == if ws == [] then TextOf(last) else LineOf(ws) + " " + TextOf(last)
  {
    hide TextOf;
    assert (ws + [last])[..|ws|] == ws;
  }

  lemma {:induction false} LineTaken(ws: seq<seq<Fragment>>, last: seq<Fragment>)
    requires LegalWord(last) && forall k :: 0 <= k < |ws| ==> LegalWord(ws[k])
    ensures Leads(NO_WORDS, LineOf(ws + [last]), Written(Between(ws), last))
    decreases |ws|
  {
    LineSnoc(ws, last);
    if ws == [] {
      NothingBetween();
      assert Fresh(NO_WORDS);
      hide Between, Leads, Written, LineOf, TextOf;
      WordTaken(NO_WORDS, last);
    } else {
      var init, penult := ws[..|ws| - 1], ws[|ws| - 1];
      assert LegalWord(penult) && penult != [];
      InitAndLast(ws);
      hide Leads, Written, LegalWord, Between, LineOf, TextOf;
      LineTaken(init, penult);
      NextWordTaken(LineOf(ws), init, penult, last);
    }
  }

  lemma NextWordTaken(line: string, ws: seq<seq<Fragment>>, fs: seq<Fragment>, last: seq<Fragment>)
    requires fs != [] && LegalWord(last) && Leads(NO_WORDS, line, Written(Between(ws), fs))
    ensures Leads(NO_WORDS, line + " " + TextOf(last), Written(Between(ws + [fs]), last))
  {
    assert Fresh(Between(ws + [fs]));
    hide Leads, Written, LegalWord, Between, TextOf;
    SpaceTaken(ws, fs);
    WordTaken(Between(ws + [fs]), last);
    LeadsOn(NO_WORDS, line, Written(Between(ws), fs), " ", Between(ws + [fs]));
    LeadsOn(NO_WORDS, line + " ", Between(ws + [fs]), TextOf(last), Written(Between(ws + [fs]), last));
  }

  lemma NothingBetween()
    ensures Between([]) == NO_WORDS
  {
    assert ArgvOf([]) == [] && AllMarks([]) == [];
  }

  /** What Parse makes of a command written so: one stage, its words the fragments' contents,
      and a "$" marked exactly where Marks says. */
  lemma WrittenWordsParse(ws: seq<seq<Fragment>>, isCommand: string -> bool)
    requires ws != [] && forall k :: 0 <= k < |ws| ==> LegalWord(ws[k])
    requires Capture(LineOf(ws)) == None
    ensures ParseLine(LineOf(ws), isCommand) == Ok([Command(ArgvOf(ws), if AnyMark(ws) then Some(AllMarks(ws)) else None, "")])
  {
    hide Capture, LineOf, ContentOf, MarksIn, Bytes, TrimSpace, Finish;
    var init, last := ws[..|ws| - 1], ws[|ws| - 1];
    assert LegalWord(last) && last != [];
    InitAndLast(ws);
    hide LegalWord;
    LineTaken(init, last);
    var v := Written(Between(init), last);
    assert TakeAll(NO_WORDS, LineOf(ws)) == v;
    LeadsScan(LineOf(ws), isCommand);
    hide Leads, TakeAll, Scanned, Written, Between, ArgvOf, AllMarks, AnyMark;
    LineFinishes(init, last, LineOf(ws), isCommand);
  }

  lemma LineFinishes(ws: seq<seq<Fragment>>, last: seq<Fragment>, raw: string, isCommand: string -> bool)
    requires last != []
    ensures var all := ws + [last];
            Finish(Scan([], Written(Between(ws), last), raw, false), isCommand)
            == Ok([Command(ArgvOf(all), if AnyMark(all) then Some(AllMarks(all)) else None, "")])
  {
    hide ContentOf, MarksIn, Bytes, TrimSpace;
    var all, v := ws + [last], Written(Between(ws), last);
    WordEnds(ws, last);
    var st := Command(ArgvOf(all), if AnyMark(all) then Some(AllMarks(all)) else None, "");
    hide AnyMark, ArgvOf, AllMarks, Written, Flush;
    assert StageOf(v, raw, true, isCommand) == Ok(st);
    assert [] + [st] == [st];
  }
}
