/** What a chain of backup runs has dumped (internal/command/backup.go), each run resumed and
    given --since or not: when it is the feed from some position on, and when it is not. */
module BackupSince {
  import opened DumpFormat
  import opened DumpScan
  import opened DumpFile
  import opened SplitAttachments
  import opened Backup

  // ---------------------------------------------------------------- spans of the feed

  function Range(job: Job, a: nat, b: nat): seq<Record>
    requires a <= job.Size() && b <= job.Size()
  {
    if a <= b then job.Span(a, b) else []
  }

  /** No row between the two positions is dumped. */
  predicate NothingBetween(job: Job, a: nat, b: nat)
    requires a <= job.Size() && b <= job.Size()
  {
    Range(job, a, b) == [] && Range(job, b, a) == []
  }

  /** A span may go by any position that is at most empty rows out of the way. */
  lemma GoBy(job: Job, a: nat, b: nat, c: nat)
    requires a <= job.Size() && b <= job.Size() && c <= job.Size()
    requires Range(job, b, a) == [] && Range(job, c, b) == []
    ensures Range(job, a, c) == Range(job, a, b) + Range(job, b, c) && Range(job, c, a) == []
  {
    hide Job.Span;
    job.SpanNothing(a);
    var lo := if a <= b && a <= c then a else if b <= c then b else c;
    var hi := if a >= b && a >= c then a else if b >= c then b else c;
    var mid := a + b + c - lo - hi;
    job.SpanSplit(lo, mid, hi);
    job.SpanNothing(b);
  }

  // ---------------------------------------------------------------- dumps begun at a position

  /** Where a dump begun at p stands. */
  function At(job: Job, p: nat, ps: seq<Page>): (at: nat)
    requires p <= job.Size() && job.ArePages(ps)
    ensures at <= job.Size()
  {
    if ps == [] then p else job.Position(ps)
  }

  /** So far it holds the feed from p on. */
  predicate HoldsFrom(job: Job, p: nat, ps: seq<Page>)
    requires p <= job.Size() && job.ArePages(ps)
  {
    job.Content(ps) == Range(job, p, At(job, p, ps)) && Range(job, At(job, p, ps), p) == []
  }

  /** Where Scan says a dump begun at p stands. */
  function Resumed(job: Job, p: nat, f: Bytes): (at: nat)
    requires job.Valid() && job.Accepts(f) && p <= job.Size()
    ensures at <= job.Size()
  {
    var res := ScanAnswer(job.g, job.j, f).res;
    if res.offset == 0 then p else job.s.position(res.seqno)
  }

  /** A run over f leaves nothing out and repeats nothing: where it starts and where the dump
      stands, nothing is dumped between. */
  predicate Continues(job: Job, p: nat, f: Bytes, since: string)
    requires job.Valid() && job.Accepts(f) && p <= job.Size()
  {
    NothingBetween(job, Resumed(job, p, f), job.StartOf(f, since))
  }

  lemma GoesHolds(job: Job, p: nat, ps: seq<Page>, ps': seq<Page>, from: nat, to: nat)
    requires from <= to <= job.Size() && p <= job.Size() && job.Goes(ps, ps', from, to)
    requires HoldsFrom(job, p, ps) && NothingBetween(job, At(job, p, ps), from)
    ensures HoldsFrom(job, p, ps') && job.Content(ps') == Range(job, p, to)
  {
    hide Job.Span, Job.Content;
    var at := At(job, p, ps);
    job.SpanNothing(to);
    GoBy(job, at, from, to);
    GoBy(job, p, at, to);
  }

  lemma ResumedIsAt(job: Job, p: nat, f: Bytes, h: Record, ps: seq<Page>, t: Bytes, m: seq<Record>)
    requires job.Valid() && p <= job.Size() && job.Unfinished(f, h, ps, t, m) && job.Accepts(f)
    ensures Resumed(job, p, f) == At(job, p, ps)
  {
    hide ScanAnswer, Job.Members, Job.Content, Gzip.Valid, Json.Valid;
    job.ScanUnfinished(f, h, ps, t, m);
  }

  // ---------------------------------------------------------------- one run

  /** Exactly when the run that completes a dump begun at p makes it the feed from p on. */
  lemma HoldsTheRestIff(job: Job, p: nat, f: Bytes, h: Record, ps: seq<Page>, t: Bytes, m: seq<Record>, a: Args, f': Bytes)
    requires job.Valid() && p <= job.Size() && job.Unfinished(f, h, ps, t, m) && HoldsFrom(job, p, ps)
    requires job.Completes(f, a, f')
    ensures job.ReadsAs(f', job.Content(ps) + job.Span(job.StartOf(f, a.since), job.Size()))
    ensures job.ReadsAs(f', job.Span(p, job.Size())) <==> Continues(job, p, f, a.since)
  {
    hide Job.Span, Job.Content, Job.Unfinished, Job.Done, Job.PlanFor, Gzip.Valid, Json.Valid, ScanAnswer, Decode;
    assert job.Attempt(f, a, f');
    var done, h', ps', t', m', stop := job.AttemptKeeps(f, h, ps, t, m, a, f');
    var start, n := job.StartOf(f, a.since), job.Size();
    job.DoneReads(f', h', ps');
    ResumedIsAt(job, p, f, h, ps, t, m);
    RestIff(job, p, ps, start);
  }

  lemma RestIff(job: Job, p: nat, ps: seq<Page>, start: nat)
    requires p <= job.Size() && start <= job.Size() && job.ArePages(ps) && HoldsFrom(job, p, ps)
    ensures job.Content(ps) + job.Span(start, job.Size()) == job.Span(p, job.Size()) <==> NothingBetween(job, At(job, p, ps), start)
  {
    hide Job.Span, Job.Content;
    var at, n := At(job, p, ps), job.Size();
    job.SpanNothing(at);
    job.SpanNothing(n);
    GoBy(job, p, at, n);
    if start <= at {
      job.SpanSplit(start, at, n);
    } else {
      job.SpanSplit(at, start, n);
    }
    assert |job.Content(ps) + job.Span(start, n)| == |job.Content(ps)| + |job.Span(start, n)|;
  }

  // ---------------------------------------------------------------- chains of runs

  /** A chain of runs each of which continues a dump begun at p. */
  ghost predicate ChainFrom(job: Job, p: nat, files: seq<Bytes>, runs: seq<Args>)
    requires job.Valid()
  {
    && p <= job.Size() && job.Chain(files, runs)
    && forall i :: 0 <= i < |runs| ==> job.Accepts(files[i]) && Continues(job, p, files[i], runs[i].since)
  }

  /** It keeps a dump of the feed from p on, to the end of it once it is finished. */
  lemma {:induction false} ChainHolds(job: Job, p: nat, files: seq<Bytes>, runs: seq<Args>)
    returns (done: bool, h: Record, ps: seq<Page>, t: Bytes, m: seq<Record>)
    requires job.Valid() && ChainFrom(job, p, files, runs)
    ensures job.ArePages(ps) && HoldsFrom(job, p, ps)
    ensures if done then job.Done(files[|runs|], h, ps) && job.Content(ps) == job.Span(p, job.Size())
            else job.Unfinished(files[|runs|], h, ps, t, m)
  {
    hide Job.Reaches, Job.Done, Job.Unfinished, Job.PlanFor, Job.Span, Job.Content, Job.StartOf, Job.Accepts, HoldsFrom, Gzip.Valid, Json.Valid;
    if runs == [] {
      done, h, ps, t := false, job.HeaderRecord(Args("", 1, "", "")), [], [];
      m := [h];
      job.EmptyIsUnfinished(h);
      NothingYet(job, p);
    } else {
      var n := |runs| - 1;
      job.ChainFront(files, runs);
      ChainFromFront(job, p, files, runs);
      done, h, ps, t, m := ChainHolds(job, p, files[..n + 1], runs[..n]);
      assert files[..n + 1][n] == files[n];
      if done {
        job.ScanDone(files[n], h, ps);
        job.NotTwice(files[n], runs[n], files[n + 1]);
        assert false;
      } else {
        ResumedIsAt(job, p, files[n], h, ps, t, m);
        var stop, ps';
        done, h, ps', t, m, stop := job.AttemptKeeps(files[n], h, ps, t, m, runs[n], files[n + 1]);
        GoesHolds(job, p, ps, ps', job.StartOf(files[n], runs[n].since), stop);
        ps := ps';
      }
    }
  }

  lemma NothingYet(job: Job, p: nat)
    requires p <= job.Size()
    ensures HoldsFrom(job, p, [])
  {
  }

  lemma ChainFromFront(job: Job, p: nat, files: seq<Bytes>, runs: seq<Args>)
    requires job.Valid() && ChainFrom(job, p, files, runs) && runs != []
    ensures var n := |runs| - 1;
            && ChainFrom(job, p, files[..n + 1], runs[..n])
            && job.Accepts(files[n]) && Continues(job, p, files[n], runs[n].since)
  {
    hide Job.Attempt, Job.Accepts, Continues, Job.Chain, Job.Valid;
    var n := |runs| - 1;
    job.ChainFront(files, runs);
    assert |files| == n + 2 by { ChainLength(job, files, runs); }
    assert forall i :: 0 <= i < n ==> files[..n + 1][i] == files[i] && runs[..n][i] == runs[i];
  }

  lemma ChainLength(job: Job, files: seq<Bytes>, runs: seq<Args>)
    requires job.Valid() && job.Chain(files, runs)
    ensures |files| == |runs| + 1
  {
  }

  /** So the complete dump it leaves is exactly the feed from p on. */
  lemma SinceHoldsTheRest(job: Job, p: nat, files: seq<Bytes>, runs: seq<Args>)
    requires job.Valid() && ChainFrom(job, p, files, runs)
    requires ScanAnswer(job.g, job.j, files[|runs|]).Found? && ScanAnswer(job.g, job.j, files[|runs|]).res.complete
    ensures job.ReadsAs(files[|runs|], job.Span(p, job.Size()))
  {
    hide Job.Done, Job.Unfinished, Job.Attempt, Job.Content, Job.Span, Job.ReadsAs, Continues, HoldsFrom, ScanAnswer;
    var done, h, ps, t, m := ChainHolds(job, p, files, runs);
    if done {
      job.DoneReads(files[|runs|], h, ps);
    } else {
      job.ScanUnfinished(files[|runs|], h, ps, t, m);
    }
  }

  /** And when all runs but the last continue, the last decides. */
  lemma LastRunDecides(job: Job, p: nat, files: seq<Bytes>, runs: seq<Args>)
    requires job.Valid() && runs != [] && job.Chain(files, runs) && ChainFrom(job, p, files[..|runs|], runs[..|runs| - 1])
    requires job.Completes(files[|runs| - 1], runs[|runs| - 1], files[|runs|])
    ensures job.ReadsAs(files[|runs|], job.Span(p, job.Size())) <==> Continues(job, p, files[|runs| - 1], runs[|runs| - 1].since)
  {
    hide Job.Done, Job.Unfinished, Job.Attempt, Job.Content, Job.Span, Job.ReadsAs, Continues, HoldsFrom, ScanAnswer;
    var n := |runs| - 1;
    var done, h, ps, t, m := ChainHolds(job, p, files[..n + 1], runs[..n]);
    assert files[..n + 1][n] == files[n];
    if done {
      job.ScanDone(files[n], h, ps);
      assert false;
    } else {
      HoldsTheRestIff(job, p, files[n], h, ps, t, m, runs[n], files[n + 1]);
    }
  }

  /** With no whole member Scan has no sequence to give. */
  lemma FreshSeq(job: Job, f: Bytes)
    requires job.Valid() && ScanAnswer(job.g, job.j, f).Found? && ScanAnswer(job.g, job.j, f).res.offset == 0
    ensures ScanAnswer(job.g, job.j, f).res.seqno == ""
  {
    if job.g.open(f).Member? {
      assert job.g.Sized(f);
      assert IntactPart(job.g, job.j, f).recs == [];
      job.CountNone(NOTHING);
    }
  }

  lemma SincelessRun(job: Job, f: Bytes)
    requires job.Valid() && job.Accepts(f)
    ensures Continues(job, 0, f, "")
  {
    var res := ScanAnswer(job.g, job.j, f).res;
    if res.offset == 0 {
      FreshSeq(job, f);
    }
    hide ScanAnswer, Gzip.Valid, Json.Valid;
    job.SpanNothing(job.StartOf(f, ""));
  }

  /** Runs that are not given --since continue a dump begun at the feed's beginning. */
  lemma SincelessContinues(job: Job, files: seq<Bytes>, runs: seq<Args>)
    requires job.Valid() && job.Chain(files, runs) && job.Sinceless(runs)
    ensures ChainFrom(job, 0, files, runs)
  {
    hide ScanAnswer, Job.PlanFor, Job.Reaches, Job.Base;
    forall i | 0 <= i < |runs|
      ensures job.Accepts(files[i]) && Continues(job, 0, files[i], runs[i].since)
    {
      assert job.Attempt(files[i], runs[i], files[i + 1]);
      SincelessRun(job, files[i]);
    }
  }

  /** Main result: once any number of interrupted and resumed runs leaves a complete dump,
      reading it yields a header, exactly the feed's revisions in feed order, none lost and
      none twice, and a footer whose counts are those of the records present. */
  lemma CompleteDumpIsTheFeed(job: Job, files: seq<Bytes>, runs: seq<Args>)
    requires job.Valid() && job.Chain(files, runs) && job.Sinceless(runs)
    requires ScanAnswer(job.g, job.j, files[|runs|]).Found? && ScanAnswer(job.g, job.j, files[|runs|]).res.complete
    ensures job.ReadsAs(files[|runs|], job.Span(0, job.Size()))
  {
    SincelessContinues(job, files, runs);
    SinceHoldsTheRest(job, 0, files, runs);
  }

  // ---------------------------------------------------------------- runs that do not continue

  /** A feed of two live documents without attachments, dumped one to a page. */
  ghost predicate TwoRows(job: Job, x: Bytes, y: Bytes) {
    job.s.feed == [Change(false, [Body(x, map[])]), Change(false, [Body(y, map[])])]
  }

  function DocRecord(x: Bytes): Record { Record(Doc(x), []) }

  lemma RowSpans(job: Job, x: Bytes, y: Bytes)
    requires TwoRows(job, x, y)
    ensures job.Span(0, 1) == [DocRecord(x)] && job.Span(1, 2) == [DocRecord(y)] && job.Span(0, 2) == [DocRecord(x), DocRecord(y)]
    ensures job.Span(2, 2) == []
  {
    OneRow(job, x);
    OneRow(job, y);
    hide Job.RevisionsRecords;
    job.SpanNothing(0);
    job.SpanNothing(1);
    job.SpanSplit(0, 1, 2);
  }

  lemma OneRow(job: Job, x: Bytes)
    ensures job.RevisionsRecords([Body(x, map[])]) == [DocRecord(x)]
  {
    var b := Body(x, map[]);
    job.NoRevisions();
    job.RevisionsSnoc([], b);
    assert [] + [b] == [b];
    assert Split(b).atts == [];
  }

  /** A first run may stop right after its first checkpoint. */
  lemma StopsAfterOnePage(job: Job, a: Args, f: Bytes)
    requires job.Valid() && 0 < a.batch <= job.Size() && a.since == ""
    requires job.ArePages([Page(0, a.batch)]) && f == Pack(job.g, job.j, job.Members(job.HeaderRecord(a), [Page(0, a.batch)]))
    ensures job.Attempt([], a, f) && job.Unfinished(f, job.HeaderRecord(a), [Page(0, a.batch)], [], [job.HeaderRecord(a)])
  {
    hide Job.Span, Job.PageMember, CountFrom, Gzip.Valid, Json.Valid;
    var h, page := job.HeaderRecord(a), Page(0, a.batch);
    assert job.g.open([]) == Short by { OpensNothing(job.g); }
    var plan := job.PlanFor([], a);
    var t := job.Counters(FRESH_START);
    assert plan == job.Plan(h, a.batch, true, 0, t);
    job.PlanPage(h, a.batch, true, 0, t);
    job.PlanSound(h, a.batch, true, 0, t);
    job.MembersNext(h, [], 0, a.batch);
    job.SameMembers(h, h);
    hide Job.Plan, Job.Members;
    assert [] + [page] == [page] && [] + [plan[0]] == plan[..1] == job.Members(h, [page]);
    job.EmptyIsTorn(plan[1]);
    job.EmptyIsTorn([h]);
    hide TornMember;
    assert [] + Pack(job.g, job.j, plan[..1]) + [] == f;
    assert job.StoppedIn(job.Base([]), plan, 1, [], f);
  }

  lemma OpensNothing(g: Gzip)
    requires g.Valid()
    ensures g.open([]) == Short
  {
  }

  /** Whatever --since says of a sequence, backup goes there: a dump that stands after n rows
      can be completed from any position, and then repeats the rows between or lacks them. */
  lemma AnySinceHappens(job: Job, a: Args, b: Args) returns (f: Bytes, f': Bytes)
    requires job.Valid() && 0 < a.batch <= job.Size() && a.since == "" && b.batch > 0 && b.since != ""
    ensures job.Chain([[], f, f'], [a, b]) && job.Completes(f, b, f')
    ensures job.ReadsAs(f', job.Span(0, a.batch) + job.Span(job.s.position(b.since), job.Size()))
  {
    hide Job.Span, Job.Plan, Job.Members, ScanAnswer, Gzip.Valid, Json.Valid, Job.PageMember, Job.HeaderRecord, Job.ReadsAs, Job.Attempt, Job.Chain;
    var h, ps := job.HeaderRecord(a), [Page(0, a.batch)];
    f := Pack(job.g, job.j, job.Members(h, ps));
    OnePage(job, a.batch);
    StopsAfterOnePage(job, a, f);
    job.ScanUnfinished(f, h, ps, [], [h]);
    f' := job.Base(f) + Pack(job.g, job.j, job.PlanFor(f, b));
    HoldsTheRestIff(job, 0, f, h, ps, [], [h], b, f');
    EndedIsStopped(job, f, b, f');
    TwoRuns(job, a, b, f, f');
  }

  lemma TwoRuns(job: Job, a: Args, b: Args, f: Bytes, f': Bytes)
    requires job.Valid() && job.Attempt([], a, f) && job.Attempt(f, b, f')
    ensures job.Chain([[], f, f'], [a, b])
  {
    hide Job.Attempt;
  }

  lemma EndedIsStopped(job: Job, f: Bytes, b: Args, f': Bytes)
    requires job.Valid() && job.Completes(f, b, f')
    ensures job.Attempt(f, b, f')
  {
    hide Job.PlanFor, Job.Accepts;
  }

  lemma OnePage(job: Job, n: nat)
    requires 0 < n <= job.Size()
    ensures job.ArePages([Page(0, n)]) && job.Content([Page(0, n)]) == job.Span(0, n) && HoldsFrom(job, 0, [Page(0, n)])
  {
    assert [Page(0, n)][..0] == [];
    hide Job.Span;
    job.SpanNothing(n);
    job.SpanNothing(0);
    assert [] + job.Span(0, n) == job.Span(0, n);
  }

  /** An earlier sequence repeats a row, and a later one loses one. */
  lemma SinceRepeatsOrLoses(job: Job, x: Bytes, y: Bytes, a: Args, b: Args) returns (f: Bytes, f': Bytes)
    requires job.Valid() && TwoRows(job, x, y) && a.since == "" && b.batch > 0
    requires (a.batch == 2 && b.since == job.s.token(1)) || (a.batch == 1 && b.since == job.s.token(2))
    ensures job.Chain([[], f, f'], [a, b]) && job.Completes(f, b, f')
    ensures job.ReadsAs(f', if a.batch == 2 then [DocRecord(x), DocRecord(y), DocRecord(y)] else [DocRecord(x)])
  {
    RowSpans(job, x, y);
    hide Job.Span, Job.ReadsAs, Job.Chain, Job.Completes, Gzip.Valid, Json.Valid;
    assert [DocRecord(x), DocRecord(y)] + [DocRecord(y)] == [DocRecord(x), DocRecord(y), DocRecord(y)];
    assert [DocRecord(x)] + [] == [DocRecord(x)];
    f, f' := AnySinceHappens(job, a, b);
  }
}
