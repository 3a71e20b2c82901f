/** The backup command (internal/command/backup.go): what one run appends to a dump, and
    what any number of interrupted and resumed runs add up to. */
module Backup {
  import opened Wrappers
  import opened DumpContent
  import opened DumpFormat
  import opened DumpScan
  import opened DumpFile
  import opened SplitAttachments

  const BACKUP_BATCH_SIZE := 200

  /** One row of the changes feed read with style=all_docs. */
  datatype Change = Change(deleted: bool, revs: seq<Body>)

  /** A fixed feed.  Sequences are opaque tokens; `position` is what the server makes of one
      and `token` is the one it hands out at a position. */
  datatype Server = Server(feed: seq<Change>, position: string -> nat, token: nat -> string) {
    ghost predicate Valid() {
      && position("") == 0
      && (forall i :: 0 <= i <= |feed| ==> position(token(i)) == i)
      && (forall q :: position(q) <= |feed|)
    }
  }

  /** What one run is given: its flags, and the server version and the time its header
      bears if it writes one. */
  datatype Args = Args(since: string, batch: nat, server: string, started: string)

  /** One page a dump holds: the feed from one position to another. */
  datatype Page = Page(from: nat, to: nat)

  /** The parameters every run of one dump shares. */
  datatype Job = Job(g: Gzip, j: Json, s: Server, db: string, partitioned: bool, tombstones: bool) {
    ghost predicate Valid() {
      g.Valid() && j.Valid() && s.Valid()
    }

    function Size(): nat { |s.feed| }

    // -------------------------------------------------------------- records

    function HeaderRecord(a: Args): Record {
      Record(Header(FORMAT_VERSION, db, a.server, a.started, partitioned, tombstones), [])
    }

    function AttRecord(doc: Bytes, a: Attachment): Record {
      Record(Att(j.idOf(doc), j.revOf(doc), a.name, a.contentType, |a.data|), a.data)
    }

    function RevisionRecords(r: Revision): seq<Record> {
      [Record(Doc(r.doc), [])] + seq(|r.atts|, i requires 0 <= i < |r.atts| => AttRecord(r.doc, r.atts[i]))
    }

    function RevisionsRecords(revs: seq<Body>): seq<Record> {
      if revs == [] then [] else RevisionsRecords(revs[..|revs| - 1]) + RevisionRecords(Split(revs[|revs| - 1]))
    }

    /** What a row contributes: nothing for a deletion unless tombstones were asked for. */
    function RowRecords(c: Change): seq<Record> {
      if c.deleted && !tombstones then [] else RevisionsRecords(c.revs)
    }

    /** The documents and attachments of feed[a..b], in feed order. */
    function Span(a: nat, b: nat): seq<Record>
      requires a <= b <= Size()
    {
      if a == b then [] else Span(a, b - 1) + RowRecords(s.feed[b - 1])
    }

    function FooterRecord(t: Tally): Record {
      Record(Footer(t.docs, t.deleted, t.atts, s.token(Size())), [])
    }

    function CheckpointRecord(b: nat): Record {
      Record(Checkpoint(s.token(b)), [])
    }

    // -------------------------------------------------------------- one run

    function PageEnd(pos: nat, batch: nat): (e: nat)
      requires pos < Size() && batch > 0
      ensures pos < e <= Size()
    {
      Min(pos + batch, Size())
    }

    predicate IsHeader(h: Record) {
      && h.payload == [] && h.line.Header? && h.line.version == FORMAT_VERSION && h.line.db == db
      && h.line.partitioned == partitioned && h.line.tombstones == tombstones
    }

    function Opening(h: Record, anew: bool): seq<Record> {
      if anew then [h] else []
    }

    /** The members one uninterrupted run appends when it starts at `pos` with counters t. */
    function Plan(h: Record, batch: nat, anew: bool, pos: nat, t: Tally): (ms: seq<seq<Record>>)
      requires pos <= Size() && batch > 0
      ensures ms != []
      decreases Size() - pos
    {
      if pos == Size() then [Opening(h, anew) + [FooterRecord(t)]]
      else
        var e := PageEnd(pos, batch);
        [Opening(h, anew) + Span(pos, e) + [CheckpointRecord(e)]] + Plan(h, batch, false, e, CountFrom(j, t, Span(pos, e)))
    }

    // -------------------------------------------------------------- whole dumps

    predicate ArePages(ps: seq<Page>) {
      forall i :: 0 <= i < |ps| ==> ps[i].from < ps[i].to <= Size()
    }

    /** Where the last checkpoint stands. */
    function Position(ps: seq<Page>): nat {
      if ps == [] then 0 else ps[|ps| - 1].to
    }

    /** The documents and attachments of some pages, in order. */
    function Content(ps: seq<Page>): seq<Record>
      requires ArePages(ps)
    {
      if ps == [] then [] else
        var n := |ps| - 1;
        Content(ps[..n]) + Span(ps[n].from, ps[n].to)
    }

    /** The members of a dump that holds these pages behind header h. */
    function Members(h: Record, ps: seq<Page>): (ms: seq<seq<Record>>)
      requires ArePages(ps)
      ensures |ms| == |ps|
    {
      if ps == [] then [] else
        var n := |ps| - 1;
        Members(h, ps[..n]) + [PageMember(h, n == 0, ps[n].from, ps[n].to)]
    }

    function PageMember(h: Record, anew: bool, from: nat, to: nat): seq<Record>
      requires from <= to <= Size()
    {
      Opening(h, anew) + Span(from, to) + [CheckpointRecord(to)]
    }

    /** A finished dump: the members of its pages, and the footer. */
    function Finished(h: Record, ps: seq<Page>): seq<seq<Record>>
      requires ArePages(ps)
    {
      Members(h, ps) + [Opening(h, ps == []) + [FooterRecord(Count(j, Content(ps)))]]
    }

    // -------------------------------------------------------------- the state of a file

    /** A dump some runs have not finished: whole members and a torn one. */
    ghost predicate Unfinished(f: Bytes, h: Record, ps: seq<Page>, t: Bytes, m: seq<Record>) {
      && IsHeader(h) && ArePages(ps)
      && f == Pack(g, j, Members(h, ps)) + t
      && TornMember(g, j, t, m)
      && (ps == [] ==> Opens(m))
    }

    ghost predicate Done(f: Bytes, h: Record, ps: seq<Page>) {
      IsHeader(h) && ArePages(ps) && f == Pack(g, j, Finished(h, ps))
    }

    /** What a file holding `kept` may become when a run meant to append `plan`: all of it,
        or what is left when the run stops - killed or failed - inside member k. */
    ghost predicate Reaches(kept: Bytes, plan: seq<seq<Record>>, f: Bytes) {
      || f == kept + Pack(g, j, plan)
      || exists k, t :: StoppedIn(kept, plan, k, t, f)
    }

    ghost predicate StoppedIn(kept: Bytes, plan: seq<seq<Record>>, k: nat, t: Bytes, f: Bytes) {
      k < |plan| && TornMember(g, j, t, plan[k]) && f == kept + Pack(g, j, plan[..k]) + t
    }

    /** The files a run with --resume agrees to continue. */
    predicate Accepts(f: Bytes)
      requires forall f' :: g.Sized(f')
    {
      var a := ScanAnswer(g, j, f);
      a.Found? && !a.res.complete && (a.res.offset > 0 ==> a.res.tombstones == tombstones)
    }

    /** Where such a run starts: at --since if it was given, else at Seq. */
    function StartOf(f: Bytes, since: string): (pos: nat)
      requires Valid() && Accepts(f)
      ensures pos <= Size()
    {
      s.position(if since == "" then ScanAnswer(g, j, f).res.seqno else since)
    }

    /** What it writes: from there, with the counters found. */
    function PlanFor(f: Bytes, a: Args): seq<seq<Record>>
      requires Valid() && Accepts(f) && a.batch > 0
    {
      var res := ScanAnswer(g, j, f).res;
      Plan(HeaderRecord(a), a.batch, res.offset == 0, StartOf(f, a.since), Counters(res))
    }

    /** What is left of the file once it is cut at Offset. */
    function Base(f: Bytes): Bytes
      requires Valid() && Accepts(f)
    {
      f[..Min(ScanAnswer(g, j, f).res.offset, |f|)]
    }

    /** One accepted run that stops anywhere. */
    ghost predicate Attempt(f: Bytes, a: Args, f': Bytes)
      requires Valid()
    {
      a.batch > 0 && Accepts(f) && Reaches(Base(f), PlanFor(f, a), f')
    }

    /** One accepted run that ends: it has written all it meant to. */
    ghost predicate Completes(f: Bytes, a: Args, f': Bytes)
      requires Valid()
    {
      a.batch > 0 && Accepts(f) && f' == Base(f) + Pack(g, j, PlanFor(f, a))
    }

    /** A chain of accepted runs from nothing, each stopped anywhere. */
    ghost predicate Chain(files: seq<Bytes>, runs: seq<Args>)
      requires Valid()
    {
      && |files| == |runs| + 1 && files[0] == []
      && forall i :: 0 <= i < |runs| ==> Attempt(files[i], runs[i], files[i + 1])
    }

    /** None of them is given --since. */
    predicate Sinceless(runs: seq<Args>) {
      forall i :: 0 <= i < |runs| ==> runs[i].since == ""
    }

    predicate SameNumbers(t: Tally, u: Tally) {
      t.docs == u.docs && t.deleted == u.deleted && t.atts == u.atts && t.bytes == u.bytes
    }

    function Counters(r: Resume): Tally {
      Tally(r.docs, r.deleted, r.attachments, r.bytes, r.seqno, r.complete)
    }

    /** Killing a run after any number of bytes is one of the ways it can stop. */
    lemma KilledAtByte(kept: Bytes, plan: seq<seq<Record>>, n: nat)
      requires Valid() && Sound(plan) && n <= |Pack(g, j, plan)|
      ensures Reaches(kept, plan, kept + Pack(g, j, plan)[..n])
    {
      var k := WholeWithin(g, j, plan, n);
      var t := CutAnywhere(g, j, plan, n);
      if k < |plan| {
        assert StoppedIn(kept, plan, k, t, kept + Pack(g, j, plan)[..n]) by {
          assert Encode(j, plan[k]) <= Encode(j, plan[k]);
          assert kept + (Pack(g, j, plan[..k]) + t) == kept + Pack(g, j, plan[..k]) + t;
        }
      } else {
        assert plan[..k] == plan;
        assert Pack(g, j, plan)[..n] == Pack(g, j, plan);
      }
    }

    // -------------------------------------------------------------- soundness of what is written

    predicate AllContent(rs: seq<Record>) {
      AllWellFormed(rs) && forall r :: r in rs ==> IsContent(r)
    }

    lemma {:induction false} RevisionsSound(revs: seq<Body>)
      ensures AllContent(RevisionsRecords(revs))
    {
      if revs != [] {
        RevisionsSound(revs[..|revs| - 1]);
        RevisionSound(Split(revs[|revs| - 1]));
      }
    }

    lemma RevisionSound(r: Revision)
      ensures AllContent(RevisionRecords(r))
    {
    }

    lemma {:induction false} SpanSound(a: nat, b: nat)
      requires a <= b <= Size()
      ensures AllContent(Span(a, b))
    {
      if a < b {
        SpanSound(a, b - 1);
        RevisionsSound(s.feed[b - 1].revs);
      }
    }

    lemma RevisionsSnoc(revs: seq<Body>, b: Body)
      ensures RevisionsRecords(revs + [b]) == RevisionsRecords(revs) + RevisionRecords(Split(b))
    {
      hide RevisionRecords, Split;
      assert (revs + [b])[..|revs|] == revs;
    }

    lemma NoRevisions()
      ensures RevisionsRecords([]) == []
    {
    }

    lemma {:induction false} RevisionsAppend(a: seq<Body>, b: seq<Body>)
      ensures RevisionsRecords(a + b) == RevisionsRecords(a) + RevisionsRecords(b)
    {
      hide RevisionRecords, Split;
      if b == [] {
        assert a + b == a;
      } else {
        var front, last := b[..|b| - 1], b[|b| - 1];
        RevisionsAppend(a, front);
        InitAndLast(b);
        RevisionsSnoc(a + front, last);
        RevisionsSnoc(front, last);
        hide RevisionsRecords;
        Associate(a, front, [last]);
        Associate(RevisionsRecords(a), RevisionsRecords(front), RevisionRecords(Split(last)));
      }
    }

    lemma {:induction false} SpanSplit(a: nat, b: nat, c: nat)
      requires a <= b <= c <= Size()
      ensures Span(a, c) == Span(a, b) + Span(b, c)
    {
      hide RowRecords;
      if b == c {
        assert Span(a, b) + [] == Span(a, b);
      } else {
        SpanSplit(a, b, c - 1);
        var row := RowRecords(s.feed[c - 1]);
        assert Span(a, b) + Span(b, c - 1) + row == Span(a, b) + (Span(b, c - 1) + row);
      }
    }

    lemma SpanSnoc(a: nat, b: nat)
      requires a <= b < Size()
      ensures Span(a, b + 1) == Span(a, b) + RowRecords(s.feed[b])
    {
    }

    lemma SpanNothing(pos: nat)
      requires pos <= Size()
      ensures Span(pos, pos) == []
    {
    }

    /** One batch member: sound, and its content is its span of the feed. */
    lemma BatchMember(h: Record, anew: bool, from: nat, to: nat)
      requires IsHeader(h) && from <= to <= Size()
      ensures AllWellFormed(PageMember(h, anew, from, to)) && Kept(PageMember(h, anew, from, to)) == Span(from, to)
    {
      hide Span, Kept;
      var o, span, c := Opening(h, anew), Span(from, to), [CheckpointRecord(to)];
      SpanSound(from, to);
      KeptAll(span);
      KeptOther(o);
      KeptOther(c);
      KeptAppend(o, span);
      KeptAppend(o + span, c);
      assert [] + span + [] == span;
    }

    lemma PageOpens(h: Record, from: nat, to: nat)
      requires IsHeader(h) && from <= to <= Size()
      ensures Opens(PageMember(h, true, from, to)) && PageMember(h, true, from, to)[0] == h
    {
      hide Span;
    }

    lemma {:induction false} MembersSound(h: Record, ps: seq<Page>)
      requires IsHeader(h) && ArePages(ps)
      ensures Sound(Members(h, ps))
      ensures ps != [] ==> Opens(Members(h, ps)[0]) && Members(h, ps)[0][0] == h
      ensures Kept(Flat(Members(h, ps))) == Content(ps)
    {
      hide Span, PageMember;
      if ps != [] {
        var n := |ps| - 1;
        var m := PageMember(h, n == 0, ps[n].from, ps[n].to);
        MembersSound(h, ps[..n]);
        BatchMember(h, n == 0, ps[n].from, ps[n].to);
        FlatSnoc(Members(h, ps[..n]), m);
        KeptAppend(Flat(Members(h, ps[..n])), m);
        if n == 0 {
          PageOpens(h, ps[0].from, ps[0].to);
        }
      }
    }

    // -------------------------------------------------------------- counters

    lemma {:induction false} CountContent(t: Tally, u: Tally, rs: seq<Record>)
      requires SameNumbers(t, u) && forall r :: r in rs ==> IsContent(r)
      ensures SameNumbers(CountFrom(j, t, rs), CountFrom(j, u, rs))
      ensures CountFrom(j, t, rs).seqno == t.seqno && CountFrom(j, t, rs).complete == t.complete
    {
      if rs != [] {
        assert rs[|rs| - 1] in rs;
        CountContent(t, u, rs[..|rs| - 1]);
      }
    }

    /** Counting a batch member counts its span and stores its sequence. */
    lemma CountBatch(h: Record, t: Tally, anew: bool, from: nat, to: nat)
      requires IsHeader(h) && from <= to <= Size()
      ensures CountFrom(j, t, PageMember(h, anew, from, to)) == CountFrom(j, t, Span(from, to)).(seqno := s.token(to))
    {
      CountAppend(j, t, Opening(h, anew) + Span(from, to), [CheckpointRecord(to)]);
      CountAppend(j, t, Opening(h, anew), Span(from, to));
      CountOne(t, h);
      CountOne(CountFrom(j, t, Span(from, to)), CheckpointRecord(to));
    }

    lemma CountOne(t: Tally, r: Record)
      ensures CountFrom(j, t, [r]) == Bump(j, t, r)
    {
      CountSnoc(j, t, [], r);
      assert [] + [r] == [r];
    }

    /** Counters that stand for some content stand, after a span, for that content and it. */
    lemma CountSpan(t: Tally, before: seq<Record>, from: nat, to: nat)
      requires from <= to <= Size() && SameNumbers(t, Count(j, before))
      ensures SameNumbers(CountFrom(j, t, Span(from, to)), Count(j, before + Span(from, to)))
      ensures CountFrom(j, t, Span(from, to)).complete == t.complete
    {
      hide Span;
      SpanSound(from, to);
      CountAppend(j, NOTHING, before, Span(from, to));
      CountContent(t, Count(j, before), Span(from, to));
    }

    /** The counters of whole members are those of their content. */
    lemma {:induction false} CountMembers(h: Record, ps: seq<Page>)
      requires IsHeader(h) && ArePages(ps)
      ensures var c := Count(j, Flat(Members(h, ps)));
              && SameNumbers(c, Count(j, Content(ps)))
              && !c.complete && c.seqno == if ps == [] then "" else s.token(Position(ps))
    {
      hide Span, PageMember;
      if ps != [] {
        var n := |ps| - 1;
        var from, to := ps[n].from, ps[n].to;
        var m := PageMember(h, n == 0, from, to);
        CountMembers(h, ps[..n]);
        FlatSnoc(Members(h, ps[..n]), m);
        CountAppend(j, NOTHING, Flat(Members(h, ps[..n])), m);
        CountBatch(h, Count(j, Flat(Members(h, ps[..n]))), n == 0, from, to);
        CountSpan(Count(j, Flat(Members(h, ps[..n]))), Content(ps[..n]), from, to);
      }
    }

    // -------------------------------------------------------------- one attempt

    lemma PlanPage(h: Record, batch: nat, opening: bool, pos: nat, t: Tally)
      requires pos < Size() && batch > 0
      ensures var e := Min(pos + batch, Size());
              Plan(h, batch, opening, pos, t) == [PageMember(h, opening, pos, e)] + Plan(h, batch, false, e, CountFrom(j, t, Span(pos, e)))
    {
    }

    lemma PlanEnd(h: Record, batch: nat, opening: bool, t: Tally)
      requires batch > 0
      ensures Plan(h, batch, opening, Size(), t) == [Opening(h, opening) + [FooterRecord(t)]]
    {
    }

    lemma PlanOpens(h: Record, batch: nat, opening: bool, pos: nat, t: Tally)
      requires pos <= Size() && batch > 0
      ensures Opening(h, opening) <= Plan(h, batch, opening, pos, t)[0]
    {
    }

    /** What a run makes of a dump when it goes from one position of the feed to another. */
    predicate Goes(ps: seq<Page>, ps': seq<Page>, from: nat, to: nat)
      requires from <= to <= Size()
    {
      && ArePages(ps) && ArePages(ps') && ps <= ps'
      && Content(ps') == Content(ps) + Span(from, to)
      && (if from == to then ps' == ps else ps' != [] && Position(ps') == to)
    }

    /** A run writes, member by member, what makes a longer dump of the one it continues. */
    lemma {:induction false} PlanExtends(h: Record, batch: nat, ps: seq<Page>, pos: nat, t: Tally, k: nat) returns (ps': seq<Page>, e: nat)
      requires IsHeader(h) && ArePages(ps) && pos <= Size() && batch > 0 && SameNumbers(t, Count(j, Content(ps)))
      requires k <= |Plan(h, batch, ps == [], pos, t)|
      ensures pos <= e <= Size() && Goes(ps, ps', pos, e)
      ensures var plan := Plan(h, batch, ps == [], pos, t);
              if k < |plan|
              then Members(h, ps') == Members(h, ps) + plan[..k] && AllWellFormed(plan[k]) && (ps' == [] ==> Opens(plan[k]))
              else e == Size() && Finished(h, ps') == Members(h, ps) + plan
      decreases Size() - pos
    {
      hide Span, CountFrom, Members, Plan, Content, PageMember;
      var plan := Plan(h, batch, ps == [], pos, t);
      if k == 0 {
        ps', e := ps, pos;
        SpanNothing(pos);
        assert Content(ps) + [] == Content(ps);
        assert Members(h, ps) + plan[..0] == Members(h, ps);
        PlanOpens(h, batch, ps == [], pos, t);
        PlanSound(h, batch, ps == [], pos, t);
      } else if pos == Size() {
        ps', e := ps, pos;
        SpanNothing(pos);
        assert Content(ps) + [] == Content(ps);
        PlanEnd(h, batch, ps == [], t);
        assert FooterRecord(t) == FooterRecord(Count(j, Content(ps)));
      } else {
        var to := PageEnd(pos, batch);
        var next := ps + [Page(pos, to)];
        PlanPage(h, batch, ps == [], pos, t);
        var t' := CountFrom(j, t, Span(pos, to));
        CountSpan(t, Content(ps), pos, to);
        MembersNext(h, ps, pos, to);
        ps', e := PlanExtends(h, batch, next, to, t', k - 1);
        GoesOn(ps, pos, to, ps', e);
        Shift(Members(h, ps), plan[0], Plan(h, batch, false, to, t'), k);
      }
    }

    lemma GoesOn(ps: seq<Page>, pos: nat, to: nat, ps': seq<Page>, e: nat)
      requires pos < to <= e <= Size() && ArePages(ps)
      requires ArePages(ps + [Page(pos, to)]) && Content(ps + [Page(pos, to)]) == Content(ps) + Span(pos, to)
      requires Goes(ps + [Page(pos, to)], ps', to, e)
      ensures Goes(ps, ps', pos, e)
    {
      hide Span, Content;
      SpanSplit(pos, to, e);
      Associate(Content(ps), Span(pos, to), Span(to, e));
    }

    lemma {:induction false} PlanSound(h: Record, batch: nat, anew: bool, pos: nat, t: Tally)
      requires IsHeader(h) && pos <= Size() && batch > 0
      ensures Sound(Plan(h, batch, anew, pos, t))
      decreases Size() - pos
    {
      hide Span, PageMember;
      if pos < Size() {
        var e := PageEnd(pos, batch);
        PlanPage(h, batch, anew, pos, t);
        BatchMember(h, anew, pos, e);
        PlanSound(h, batch, false, e, CountFrom(j, t, Span(pos, e)));
        hide Plan;
      }
    }

    /** A run writes a member for every page of `batch` rows, the last page perhaps shorter, and
        one for the footer. */
    lemma {:induction false} PlanLength(h: Record, batch: nat, anew: bool, pos: nat, t: Tally)
      requires pos <= Size() && batch > 0
      ensures var pages := |Plan(h, batch, anew, pos, t)| - 1;
              pages * batch >= Size() - pos && (pages > 0 ==> (pages - 1) * batch < Size() - pos)
      decreases Size() - pos
    {
      hide Span, CountFrom, PageMember;
      if pos < Size() {
        var e := PageEnd(pos, batch);
        PlanPage(h, batch, anew, pos, t);
        PlanLength(h, batch, false, e, CountFrom(j, t, Span(pos, e)));
        hide Plan;
        var pages := |Plan(h, batch, false, e, CountFrom(j, t, Span(pos, e)))| - 1;
        assert (pages + 1) * batch == pages * batch + batch;
        assert pages > 0 ==> (pages - 1) * batch + batch == pages * batch;
      }
    }

    lemma MembersNext(h: Record, ps: seq<Page>, from: nat, to: nat)
      requires ArePages(ps) && from < to <= Size()
      ensures ArePages(ps + [Page(from, to)])
      ensures Content(ps + [Page(from, to)]) == Content(ps) + Span(from, to)
      ensures Members(h, ps + [Page(from, to)]) == Members(h, ps) + [PageMember(h, ps == [], from, to)]
    {
      assert (ps + [Page(from, to)])[..|ps|] == ps;
      hide Span, PageMember;
    }

    /** What Scan reports on an unfinished dump is exactly where its last checkpoint stands. */
    lemma ScanUnfinished(f: Bytes, h: Record, ps: seq<Page>, t: Bytes, m: seq<Record>)
      requires Valid() && Unfinished(f, h, ps, t, m)
      ensures var answer := ScanAnswer(g, j, f);
              answer.Found? ==>
                && !answer.res.complete && answer.res.seqno == (if ps == [] then "" else s.token(Position(ps)))
                && s.position(answer.res.seqno) == Position(ps)
                && SameNumbers(Counters(answer.res), Count(j, Content(ps)))
                && answer.res.offset == |Pack(g, j, Members(h, ps))|
                && (answer.res.offset == 0 <==> ps == [])
                && (ps != [] ==> answer.res.tombstones == tombstones)
      ensures ps != [] ==> ScanAnswer(g, j, f).Found?
    {
      hide Span, CountFrom, Members;
      MembersSound(h, ps);
      CountMembers(h, ps);
      if ps != [] {
        ScanOfMembers(g, j, Members(h, ps), t, m);
        assert g.ReadsWhole(Encode(j, Members(h, ps)[0]), []);
      } else {
        assert f == t;
        CountNone(NOTHING);
        ScanOfTornStart(g, j, t, m);
      }
    }

    /** Which of the files an interruption leaves --resume goes on with: those that hold a
        whole member, those too short for gzip's own header, and those of whose first member a
        record can be read.  Any other it takes for no dump. */
    lemma AcceptedIff(f: Bytes, h: Record, ps: seq<Page>, t: Bytes, m: seq<Record>)
      requires Valid() && Unfinished(f, h, ps, t, m)
      ensures Accepts(f) <==>
              ps != [] || g.open(f).Short? || (g.open(f).Member? && Decode(j, g.open(f).data, false).recs != [])
      ensures !Accepts(f) ==> ScanAnswer(g, j, f) == NotADump
    {
      hide Members, Content;
      ScanUnfinished(f, h, ps, t, m);
      if ps == [] {
        SameMembers(h, h);
        assert f == t;
        ScanOfTornStart(g, j, t, m);
        CountNone(NOTHING);
      }
    }

    /** Behind a header that is there already, a run writes none of its own. */
    lemma {:induction false} SamePlan(h: Record, h': Record, batch: nat, pos: nat, t: Tally)
      requires pos <= Size() && batch > 0
      ensures Plan(h, batch, false, pos, t) == Plan(h', batch, false, pos, t)
      decreases Size() - pos
    {
      hide Span, CountFrom;
      if pos < Size() {
        var e := PageEnd(pos, batch);
        SamePlan(h, h', batch, e, CountFrom(j, t, Span(pos, e)));
      }
    }

    lemma SameMembers(h: Record, h': Record)
      ensures Members(h, []) == Members(h', []) == []
    {
    }

    /** A run over an unfinished dump goes on from where it starts, and finishes the dump or
        leaves another unfinished one; a run that ends finishes it. */
    lemma AttemptKeeps(f: Bytes, h: Record, ps: seq<Page>, t: Bytes, m: seq<Record>, a: Args, f': Bytes)
      returns (done: bool, h': Record, ps': seq<Page>, t': Bytes, m': seq<Record>, stop: nat)
      requires Valid() && Unfinished(f, h, ps, t, m) && Attempt(f, a, f')
      ensures StartOf(f, a.since) <= stop <= Size() && Goes(ps, ps', StartOf(f, a.since), stop)
      ensures h' == if ps == [] then HeaderRecord(a) else h
      ensures if done then Done(f', h', ps') && stop == Size() else Unfinished(f', h', ps', t', m')
      ensures Completes(f, a, f') ==> done
    {
      hide Span, CountFrom, Members, IntactPart, Content, Plan, Finished, Sound;
      ScanUnfinished(f, h, ps, t, m);
      h' := if ps == [] then HeaderRecord(a) else h;
      SameMembers(h, h');
      var ms, res, pos := Members(h', ps), ScanAnswer(g, j, f).res, StartOf(f, a.since);
      var kept, plan := Base(f), PlanFor(f, a);
      assert kept == Pack(g, j, ms);
      SamePlan(HeaderRecord(a), h', a.batch, pos, Counters(res));
      assert plan == Plan(h', a.batch, ps == [], pos, Counters(res));
      t', m' := [], [];
      if f' == kept + Pack(g, j, plan) {
        done := true;
        ps', stop := PlanExtends(h', a.batch, ps, pos, Counters(res), |plan|);
        PackAppend(g, j, ms, plan);
      } else {
        done := false;
        var k: nat;
        k, t' :| StoppedIn(kept, plan, k, t', f');
        ps', stop := PlanExtends(h', a.batch, ps, pos, Counters(res), k);
        PackAppend(g, j, ms, plan[..k]);
        m' := plan[k];
      }
    }

    // -------------------------------------------------------------- chains of runs

    /** Where each run of a chain starts in the feed. */
    predicate AreStarts(files: seq<Bytes>, runs: seq<Args>, starts: seq<nat>)
      requires Valid() && |files| >= |runs|
    {
      && |starts| == |runs|
      && forall i :: 0 <= i < |runs| ==> Accepts(files[i]) && starts[i] == StartOf(files[i], runs[i].since)
    }

    predicate AreSpans(starts: seq<nat>, stops: seq<nat>) {
      |starts| == |stops| && forall i :: 0 <= i < |starts| ==> starts[i] <= stops[i] <= Size()
    }

    /** What is read of the feed from each start to its stop, one after another. */
    function Spans(starts: seq<nat>, stops: seq<nat>): seq<Record>
      requires AreSpans(starts, stops)
    {
      if starts == [] then [] else
        var n := |starts| - 1;
        Spans(starts[..n], stops[..n]) + Span(starts[n], stops[n])
    }

    /** Any number of interruptions, at any byte, each run given what flags it will: the dump
        holds what each run read of the feed, from its start to where it stopped. */
    lemma {:induction false} Interruptions(files: seq<Bytes>, runs: seq<Args>)
      returns (done: bool, h: Record, ps: seq<Page>, t: Bytes, m: seq<Record>, starts: seq<nat>, stops: seq<nat>)
      requires Valid() && Chain(files, runs)
      ensures AreStarts(files, runs, starts) && AreSpans(starts, stops) && ArePages(ps) && Content(ps) == Spans(starts, stops)
      ensures if done then Done(files[|runs|], h, ps) else Unfinished(files[|runs|], h, ps, t, m)
      ensures done ==> runs != [] && stops[|runs| - 1] == Size()
      ensures if runs == [] then ps == [] else HasHeaderOf(h, runs)
      ensures runs != [] && Completes(files[|runs| - 1], runs[|runs| - 1], files[|runs|]) ==> done
    {
      hide Reaches, Done, Unfinished, Plan, Members, Finished, Span, Spans, Content, StartOf, Accepts, HasHeaderOf;
      if runs == [] {
        done, h, ps, t, starts, stops := false, HeaderRecord(Args("", 1, "", "")), [], [], [], [];
        m := [h];
        EmptyIsUnfinished(h);
        NoContent();
      } else {
        var n := |runs| - 1;
        ChainFront(files, runs);
        done, h, ps, t, m, starts, stops := Interruptions(files[..n + 1], runs[..n]);
        assert files[..n + 1][n] == files[n];
        if done {
          ScanDone(files[n], h, ps);
          NotTwice(files[n], runs[n], files[n + 1]);
          assert false;
        } else {
          var stop, ps';
          ghost var h0 := h;
          done, h, ps', t, m, stop := AttemptKeeps(files[n], h, ps, t, m, runs[n], files[n + 1]);
          assert h == HeaderRecord(runs[n]) || (n > 0 && h == h0);
          HeaderOfARun(h, h0, runs);
          var start := StartOf(files[n], runs[n].since);
          SpansSnoc(starts, stops, start, stop);
          StartsSnoc(files, runs, starts);
          ps, starts, stops := ps', starts + [start], stops + [stop];
        }
      }
    }

    /** The header is one of a run's. */
    ghost predicate HasHeaderOf(h: Record, runs: seq<Args>) {
      exists w :: 0 <= w < |runs| && h == HeaderRecord(runs[w])
    }

    lemma HeaderOfARun(h: Record, before: Record, runs: seq<Args>)
      requires runs != [] && (h == HeaderRecord(runs[|runs| - 1]) || (h == before && HasHeaderOf(before, runs[..|runs| - 1])))
      ensures HasHeaderOf(h, runs)
    {
      if h == before && HasHeaderOf(before, runs[..|runs| - 1]) {
        var w :| 0 <= w < |runs| - 1 && before == HeaderRecord(runs[..|runs| - 1][w]);
        assert runs[w] == runs[..|runs| - 1][w];
      }
    }

    lemma ChainFront(files: seq<Bytes>, runs: seq<Args>)
      requires Valid() && Chain(files, runs) && runs != []
      ensures var n := |runs| - 1;
              Chain(files[..n + 1], runs[..n]) && Attempt(files[n], runs[n], files[n + 1])
    {
      hide Reaches, PlanFor, StartOf, ScanAnswer;
      var n := |runs| - 1;
      assert forall i :: 0 <= i < n ==> Attempt(files[i], runs[i], files[i + 1]);
      forall i | 0 <= i < n
        ensures Attempt(files[..n + 1][i], runs[..n][i], files[..n + 1][i + 1])
      {
        assert Attempt(files[i], runs[i], files[i + 1]);
      }
      assert Attempt(files[n], runs[n], files[n + 1]);
    }

    lemma NotTwice(f: Bytes, a: Args, f': Bytes)
      requires Valid() && Attempt(f, a, f')
      ensures ScanAnswer(g, j, f).Found? && !ScanAnswer(g, j, f).res.complete
    {
    }

    lemma SpansSnoc(starts: seq<nat>, stops: seq<nat>, start: nat, stop: nat)
      requires AreSpans(starts, stops) && start <= stop <= Size()
      ensures AreSpans(starts + [start], stops + [stop])
      ensures Spans(starts + [start], stops + [stop]) == Spans(starts, stops) + Span(start, stop)
    {
      hide Span;
      assert (starts + [start])[..|starts|] == starts && (stops + [stop])[..|stops|] == stops;
    }

    lemma StartsSnoc(files: seq<Bytes>, runs: seq<Args>, starts: seq<nat>)
      requires Valid() && runs != [] && |files| == |runs| + 1
      requires var n := |runs| - 1; AreStarts(files[..n + 1], runs[..n], starts) && Accepts(files[n])
      ensures AreStarts(files, runs, starts + [StartOf(files[|runs| - 1], runs[|runs| - 1].since)])
    {
      hide StartOf, Accepts;
      var n := |runs| - 1;
      assert forall i :: 0 <= i < n ==> files[..n + 1][i] == files[i] && runs[..n][i] == runs[i];
    }

    lemma NoContent()
      ensures Content([]) == [] && Spans([], []) == []
    {
    }

    lemma EmptyIsUnfinished(h: Record)
      requires Valid() && IsHeader(h)
      ensures Unfinished([], h, [], [], [h])
    {
      hide Members, Gzip.Valid, Json.Valid, Encode;
      SameMembers(h, h);
      EmptyIsTorn([h]);
      hide TornMember;
      assert Pack(g, j, []) + [] == [];
    }

    lemma EmptyIsTorn(m: seq<Record>)
      requires Valid() && AllWellFormed(m)
      ensures TornMember(g, j, [], m)
    {
      hide Encode;
      assert g.ReadsWhole([], []);
      assert [] <= Encode(j, m) && [] < g.pack([]);
    }

    // -------------------------------------------------------------- finished dumps

    lemma FinishedShape(h: Record, ps: seq<Page>)
      requires IsHeader(h) && ArePages(ps)
      ensures var last := Opening(h, ps == []) + [FooterRecord(Count(j, Content(ps)))];
              && Finished(h, ps) == Members(h, ps) + [last]
              && AllWellFormed(last) && Kept(last) == []
              && Flat(Finished(h, ps)) == Flat(Members(h, ps)) + last
    {
      hide Span, CountFrom, Members, Flat, Kept, Content;
      var last := Opening(h, ps == []) + [FooterRecord(Count(j, Content(ps)))];
      KeptOther(last);
      assert AllWellFormed(Opening(h, ps == [])) && WellFormed(FooterRecord(Count(j, Content(ps))));
      FlatSnoc(Members(h, ps), last);
    }

    lemma FinishedSound(h: Record, ps: seq<Page>)
      requires IsHeader(h) && ArePages(ps)
      ensures var ms := Finished(h, ps);
              Sound(ms) && Opens(ms[0]) && ms[0][0] == h && Kept(Flat(ms)) == Content(ps)
    {
      hide Span, CountFrom, Members, Flat, Kept, Content;
      var last := Opening(h, ps == []) + [FooterRecord(Count(j, Content(ps)))];
      FinishedShape(h, ps);
      MembersSound(h, ps);
      KeptAppend(Flat(Members(h, ps)), last);
      assert Content(ps) + [] == Content(ps);
    }

    lemma FinishedCount(h: Record, ps: seq<Page>)
      requires IsHeader(h) && ArePages(ps)
      ensures var all := Flat(Finished(h, ps));
              && all != [] && all[|all| - 1] == FooterRecord(Count(j, all))
              && SameNumbers(Count(j, all), Count(j, Content(ps))) && Count(j, all).complete
    {
      hide Span, CountFrom, Members, Flat, Kept, Finished, Content;
      var front, footer := Flat(Members(h, ps)), FooterRecord(Count(j, Content(ps)));
      FinishedShape(h, ps);
      CountMembers(h, ps);
      assert Flat(Finished(h, ps)) == (front + Opening(h, ps == [])) + [footer];
      CountSnoc(j, NOTHING, front + Opening(h, ps == []), footer);
      CountAppend(j, NOTHING, front, Opening(h, ps == []));
      CountOne(Count(j, front), h);
      CountNone(Count(j, front));
    }

    lemma CountNone(t: Tally)
      ensures CountFrom(j, t, []) == t
    {
    }

    /** The header opens the dump, and there is no other. */
    lemma OneHeader(h: Record, ps: seq<Page>)
      requires IsHeader(h) && ArePages(ps)
      ensures var rs := Flat(Finished(h, ps)); rs != [] && rs[0] == h && forall i :: 0 < i < |rs| ==> !rs[i].line.Header?
    {
      hide Content, Members, Flat, Finished;
      var front, last := Flat(Members(h, ps)), Opening(h, ps == []) + [FooterRecord(Count(j, Content(ps)))];
      FinishedShape(h, ps);
      HeaderFirst(h, ps);
    }

    lemma {:induction false} HeaderFirst(h: Record, ps: seq<Page>)
      requires IsHeader(h) && ArePages(ps)
      ensures var rs := Flat(Members(h, ps));
              (ps == [] <==> rs == []) && (rs != [] ==> rs[0] == h) && forall i :: 0 < i < |rs| ==> !rs[i].line.Header?
    {
      hide Span, Flat;
      if ps == [] {
        SameMembers(h, h);
        assert Flat<Record>([]) == [] by { NothingFlat(); }
      } else {
        var n := |ps| - 1;
        var front, m := Flat(Members(h, ps[..n])), PageMember(h, n == 0, ps[n].from, ps[n].to);
        HeaderFirst(h, ps[..n]);
        FlatSnoc(Members(h, ps[..n]), m);
        SpanSound(ps[n].from, ps[n].to);
        assert n == 0 ==> m[0] == h;
        var o, span := if n == 0 then 1 else 0, Span(ps[n].from, ps[n].to);
        forall i | o <= i < |m|
          ensures !m[i].line.Header?
        {
          if i < |m| - 1 {
            assert m[i] == span[i - o] && span[i - o] in span;
          }
        }
      }
    }

    lemma NothingFlat()
      ensures Flat<Record>([]) == []
    {
    }

    /** A finished dump is reported complete, with the counters of all it holds. */
    lemma ScanDone(f: Bytes, h: Record, ps: seq<Page>)
      requires Valid() && Done(f, h, ps)
      ensures var a := ScanAnswer(g, j, f);
              && a.Found? && a.res.complete && a.res.offset == |f| && a.res.tombstones == tombstones
              && SameNumbers(Counters(a.res), Count(j, Content(ps)))
    {
      hide Span, CountFrom, Members, IntactPart, Finished, Content;
      FinishedSound(h, ps);
      FinishedCount(h, ps);
      EmptyIsTorn([]);
      ScanOfMembers(g, j, Finished(h, ps), [], []);
      assert f + [] == f;
    }

    /** A run that ends leaves a dump Scan calls complete, whatever the runs before it left. */
    lemma EndedRunIsComplete(files: seq<Bytes>, runs: seq<Args>)
      requires Valid() && Chain(files, runs) && runs != []
      requires Completes(files[|runs| - 1], runs[|runs| - 1], files[|runs|])
      ensures ScanAnswer(g, j, files[|runs|]).Found? && ScanAnswer(g, j, files[|runs|]).res.complete
    {
      hide Completes, Done, Unfinished, Attempt, Content;
      var done, h, ps, t, m, starts, stops := Interruptions(files, runs);
      ScanDone(files[|runs|], h, ps);
    }

    /** What a complete dump reads as: a header, exactly this content, and a footer whose
        counts are those of the records present. */
    ghost predicate ReadsAs(f: Bytes, content: seq<Record>)
      requires Valid()
    {
      var read := ReadAll(g, j, f);
      && read.end == Clean && read.recs != []
      && IsHeader(read.recs[0]) && read.recs[0].line.version == "1.1"
      && Kept(read.recs) == content
      && read.recs[|read.recs| - 1].payload == []
      && read.recs[|read.recs| - 1].line
         == Footer(|Select(j, read.recs, Docs)|, |Select(j, read.recs, Deletions)|, |Select(j, read.recs, Atts)|, s.token(Size()))
    }

    lemma DoneReads(f: Bytes, h: Record, ps: seq<Page>)
      requires Valid() && Done(f, h, ps)
      ensures ReadsAs(f, Content(ps)) && ReadAll(g, j, f).recs[0] == h
    {
      hide Content, Members;
      FinishedSound(h, ps);
      FinishedCount(h, ps);
      ReadPack(g, j, Finished(h, ps));
      CountersMean(j, Flat(Finished(h, ps)));
      assert Flat(Finished(h, ps))[0] == Finished(h, ps)[0][0];
    }

    /** Once a chain of runs - interrupted and resumed, each given --since or not - leaves a
        complete dump, it holds exactly what each run read of the feed, in order, the last
        of them to its end. */
    lemma CompleteDumpIsWhatWasRead(files: seq<Bytes>, runs: seq<Args>) returns (starts: seq<nat>, stops: seq<nat>)
      requires Valid() && Chain(files, runs)
      requires ScanAnswer(g, j, files[|runs|]).Found? && ScanAnswer(g, j, files[|runs|]).res.complete
      ensures AreStarts(files, runs, starts) && AreSpans(starts, stops)
      ensures runs != [] && stops[|runs| - 1] == Size()
      ensures ReadsAs(files[|runs|], Spans(starts, stops))
      ensures var h := ReadAll(g, j, files[|runs|]).recs[0].line;
              exists w :: 0 <= w < |runs| && h.server == runs[w].server && h.started == runs[w].started
    {
      hide Done, Unfinished, Attempt, Content, ReadsAs, Spans, AreStarts, ScanAnswer;
      var done, h, ps, t, m;
      done, h, ps, t, m, starts, stops := Interruptions(files, runs);
      if done {
        DoneReads(files[|runs|], h, ps);
      } else {
        ScanUnfinished(files[|runs|], h, ps, t, m);
      }
    }
  }

  lemma Shift<T>(a: seq<T>, x: T, b: seq<T>, k: nat)
    requires 0 < k <= |b| + 1
    ensures (a + [x]) + b[..k - 1] == a + ([x] + b)[..k]
    ensures (a + [x]) + b == a + ([x] + b)
  {
  }
}
