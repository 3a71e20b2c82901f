/** Backup and restore together: what a dump that backup produced gives back. */
module BackupRestore {
  import opened Wrappers
  import opened DumpContent
  import opened DumpFormat
  import opened DumpScan
  import opened DumpFile
  import opened Backup
  import opened BackupSince
  import opened SplitAttachments
  import opened RestoreRule
  import opened RestoreTarget
  import opened Restore

  /** The revisions feed[a..b] contributes, in feed order. */
  function Revisions(job: Job, a: nat, b: nat): seq<Body>
    requires a <= b <= job.Size()
  {
    if a == b then [] else
      var row := job.s.feed[b - 1];
      Revisions(job, a, b - 1) + if row.deleted && !job.tombstones then [] else row.revs
  }

  /** These are the leaf revisions of the rows between, live or - with --tombstones - deleted. */
  lemma {:induction false} RevisionsAre(job: Job, a: nat, b: nat, body: Body)
    requires a <= b <= job.Size()
    ensures body in Revisions(job, a, b) <==>
            exists i :: a <= i < b && body in job.s.feed[i].revs && (job.s.feed[i].deleted ==> job.tombstones)
  {
    if a < b {
      RevisionsAre(job, a, b - 1, body);
    }
  }

  function AttRecords(job: Job, r: Revision): (rs: seq<Record>)
    ensures Attachments(rs) && |rs| == |r.atts|
  {
    seq(|r.atts|, i requires 0 <= i < |r.atts| => job.AttRecord(r.doc, r.atts[i]))
  }

  /** One revision as restore writes it. */
  function Restored(job: Job, b: Body): Outgoing {
    AttachAll(Plain(b.doc), AttRecords(job, Split(b)))
  }

  function RestoredAll(job: Job, revs: seq<Body>): (ds: seq<Outgoing>)
    ensures |ds| == |revs|
    ensures forall i :: 0 <= i < |revs| ==> ds[i] == Restored(job, revs[i])
  {
    seq(|revs|, i requires 0 <= i < |revs| => Restored(job, revs[i]))
  }

  /** No deletion among them holds attachments. */
  predicate Restorable(job: Job, revs: seq<Body>) {
    forall b :: b in revs ==> Plausible(job, b)
  }

  predicate Plausible(job: Job, b: Body) {
    job.j.isTombstone(b.doc) ==> b.stubs == map[]
  }

  // ---------------------------------------------------------------- headers, checkpoints and footers do not matter

  lemma KeptSnoc(rs: seq<Record>, r: Record)
    ensures Kept(rs + [r]) == Kept(rs) + if IsContent(r) then [r] else []
  {
    assert (rs + [r])[..|rs|] == rs;
  }

  lemma {:induction false} SameLastDoc(rs: seq<Record>)
    ensures LastDoc(Kept(rs)) == LastDoc(rs)
  {
    if rs != [] {
      var front, r := rs[..|rs| - 1], rs[|rs| - 1];
      SameLastDoc(front);
      InitAndLast(rs);
      KeptSnoc(front, r);
      LastDocSnoc(front, r);
      LastDocSnoc(Kept(front), r);
      assert Kept(front) + [] == Kept(front);
    }
  }

  /** Records are in order, and mean their documents, by their doc and att records alone. */
  lemma {:induction false} KeptDecides(j: Json, rs: seq<Record>)
    ensures Ordered(j, rs) <==> Ordered(j, Kept(rs))
    ensures Ordered(j, rs) ==> Documents(j, rs) == Documents(j, Kept(rs))
  {
    if rs != [] {
      var front, r := rs[..|rs| - 1], rs[|rs| - 1];
      KeptDecides(j, front);
      InitAndLast(rs);
      KeptSnoc(front, r);
      if Ordered(j, front) {
        KeptGoesOn(j, front, r);
      } else {
        FrontOrdered(j, front, [r]);
        FrontOrdered(j, Kept(front), if IsContent(r) then [r] else []);
      }
    }
  }

  lemma KeptGoesOn(j: Json, front: seq<Record>, r: Record)
    requires Ordered(j, front) && Ordered(j, Kept(front)) && Documents(j, front) == Documents(j, Kept(front))
    ensures var kept := Kept(front) + if IsContent(r) then [r] else [];
            && (Ordered(j, front + [r]) <==> Ordered(j, kept))
            && (Ordered(j, front + [r]) ==> Documents(j, front + [r]) == Documents(j, kept))
  {
    hide Ordered, LastDoc, Documents, Kept;
    SameLastDoc(front);
    OrderedSnoc(j, front, r);
    OrderedSnoc(j, Kept(front), r);
    if InPlace(j, front, r) {
      DocumentsSnoc(j, front, r);
      if IsContent(r) {
        DocumentsSnoc(j, Kept(front), r);
      }
    }
    assert Kept(front) + [] == Kept(front);
  }

  // ---------------------------------------------------------------- one revision

  lemma {:induction false} AddsRevision(job: Job, rs: seq<Record>, r: Revision, k: nat)
    requires (job.j.isTombstone(r.doc) ==> r.atts == []) && k <= |r.atts| && Ordered(job.j, rs)
    ensures var some := job.RevisionRecords(r)[..k + 1];
            && Ordered(job.j, rs + some)
            && Documents(job.j, rs + some) == Documents(job.j, rs) + [AttachAll(Plain(r.doc), AttRecords(job, r)[..k])]
    decreases k
  {
    hide Documents, Ordered, Attach;
    var recs, atts := job.RevisionRecords(r), AttRecords(job, r);
    if k == 0 {
      assert recs[..1] == [Record(Doc(r.doc), [])] && atts[..0] == [];
      DocumentsSnoc(job.j, rs, recs[0]);
    } else {
      AddsRevision(job, rs, r, k - 1);
      var before := rs + recs[..k];
      assert rs + recs[..k + 1] == before + [recs[k]] && recs[k] == atts[k - 1];
      assert atts[..k] == atts[..k - 1] + [atts[k - 1]] && atts[..k][..k - 1] == atts[..k - 1];
      var ds, p := Documents(job.j, rs), AttachAll(Plain(r.doc), atts[..k - 1]);
      BodyKept(Plain(r.doc), atts[..k - 1]);
      LastDocAt(job, before);
      DocumentsSnoc(job.j, before, recs[k]);
      assert (ds + [p])[..|ds|] == ds;
    }
  }

  lemma LastDocAt(job: Job, rs: seq<Record>)
    requires Ordered(job.j, rs) && Documents(job.j, rs) != []
    ensures LastDoc(rs) == Some(Documents(job.j, rs)[|Documents(job.j, rs)| - 1].body)
  {
  }

  lemma {:induction false} BodyKept(p: Outgoing, atts: seq<Record>)
    requires Attachments(atts)
    ensures AttachAll(p, atts).body == p.body
  {
    if atts != [] {
      BodyKept(p, atts[..|atts| - 1]);
    }
  }

  lemma AddsWhole(job: Job, rs: seq<Record>, b: Body)
    requires Plausible(job, b) && Ordered(job.j, rs)
    ensures var all := rs + job.RevisionRecords(Split(b));
            Ordered(job.j, all) && Documents(job.j, all) == Documents(job.j, rs) + [Restored(job, b)]
  {
    var r := Split(b);
    assert b.stubs == map[] ==> r.atts == [];
    WholeOf(job, r);
    hide Documents, Ordered, AttachAll, Split, Job.RevisionRecords, AttRecords;
    AddsRevision(job, rs, r, |r.atts|);
  }

  lemma WholeOf(job: Job, r: Revision)
    ensures job.RevisionRecords(r)[..|r.atts| + 1] == job.RevisionRecords(r)
    ensures AttRecords(job, r)[..|r.atts|] == AttRecords(job, r)
  {
  }

  /** An attachment behind a deletion is out of place. */
  lemma ImplausibleBreaks(job: Job, rs: seq<Record>, b: Body)
    requires !Plausible(job, b)
    ensures !Ordered(job.j, rs + job.RevisionRecords(Split(b)))
  {
    var r := Split(b);
    assert |r.atts| > 0 by {
      assert |b.stubs| != 0;
    }
    var all := rs + job.RevisionRecords(r);
    var n := |rs| + 1;
    assert all[..n] == rs + [Record(Doc(r.doc), [])] && all[n] == job.AttRecord(r.doc, r.atts[0]);
    assert LastDoc(all[..n]) == Some(r.doc);
    assert !InPlace(job.j, all[..n], all[n]);
  }

  lemma RestoredSnoc(job: Job, revs: seq<Body>, b: Body)
    ensures RestoredAll(job, revs + [b]) == RestoredAll(job, revs) + [Restored(job, b)]
    ensures Restorable(job, revs + [b]) <==> Restorable(job, revs) && Plausible(job, b)
  {
    hide Restored, Plausible;
    assert forall x :: x in revs + [b] <==> x in revs || x == b;
  }

  /** A run of revisions is in order exactly when none of them is a deletion that holds
      attachments; and then it means those revisions, each once. */
  lemma {:induction false} RevisionsDecide(job: Job, revs: seq<Body>)
    ensures Ordered(job.j, job.RevisionsRecords(revs)) <==> Restorable(job, revs)
    ensures Restorable(job, revs) ==> Documents(job.j, job.RevisionsRecords(revs)) == RestoredAll(job, revs)
  {
    if revs != [] {
      var front, last := revs[..|revs| - 1], revs[|revs| - 1];
      RevisionsDecide(job, front);
      InitAndLast(revs);
      job.RevisionsSnoc(front, last);
      RestoredSnoc(job, front, last);
      hide Documents, Ordered, Restored, Plausible, Split, Job.RevisionRecords, Job.RevisionsRecords, RestoredAll, Restorable;
      if !Plausible(job, last) {
        ImplausibleBreaks(job, job.RevisionsRecords(front), last);
      } else if Restorable(job, front) {
        AddsWhole(job, job.RevisionsRecords(front), last);
      } else {
        FrontOrdered(job.j, job.RevisionsRecords(front), job.RevisionRecords(Split(last)));
      }
    }
  }

  lemma FrontOrdered(j: Json, a: seq<Record>, b: seq<Record>)
    ensures Ordered(j, a + b) ==> Ordered(j, a)
  {
    if Ordered(j, a + b) {
      OrderedTake(j, a + b, |a|);
      assert (a + b)[..|a|] == a;
    }
  }

  lemma {:induction false} SpanIsRevisions(job: Job, a: nat, b: nat)
    requires a <= b <= job.Size()
    ensures job.Span(a, b) == job.RevisionsRecords(Revisions(job, a, b))
  {
    hide Job.RevisionsRecords;
    if a < b {
      var row, before := job.s.feed[b - 1], Revisions(job, a, b - 1);
      SpanIsRevisions(job, a, b - 1);
      if row.deleted && !job.tombstones {
        assert job.RevisionsRecords(before) + [] == job.RevisionsRecords(before);
        assert before + [] == before;
      } else {
        job.RevisionsAppend(before, row.revs);
      }
    } else {
      job.NoRevisions();
    }
  }

  /** Records that hold some revisions are in order exactly when those can be restored. */
  lemma RevisionsHeld(job: Job, rs: seq<Record>, revs: seq<Body>)
    requires Kept(rs) == job.RevisionsRecords(revs)
    ensures Ordered(job.j, rs) <==> Restorable(job, revs)
    ensures Ordered(job.j, rs) ==> Documents(job.j, rs) == RestoredAll(job, revs)
  {
    hide Documents, Ordered, RestoredAll, Restorable, Kept, Job.RevisionsRecords;
    RevisionsDecide(job, revs);
    KeptDecides(job.j, rs);
  }

  /** The revisions several spans of the feed contribute, one span after another. */
  function SpansRevisions(job: Job, starts: seq<nat>, stops: seq<nat>): seq<Body>
    requires job.AreSpans(starts, stops)
  {
    if starts == [] then [] else
      var n := |starts| - 1;
      SpansRevisions(job, starts[..n], stops[..n]) + Revisions(job, starts[n], stops[n])
  }

  lemma {:induction false} SpansAreRevisions(job: Job, starts: seq<nat>, stops: seq<nat>)
    requires job.AreSpans(starts, stops)
    ensures job.Spans(starts, stops) == job.RevisionsRecords(SpansRevisions(job, starts, stops))
  {
    hide Job.RevisionsRecords, Revisions, Job.Span;
    if starts == [] {
      job.NoRevisions();
    } else {
      var n := |starts| - 1;
      SpansAreRevisions(job, starts[..n], stops[..n]);
      SpanIsRevisions(job, starts[n], stops[n]);
      job.RevisionsAppend(SpansRevisions(job, starts[..n], stops[..n]), Revisions(job, starts[n], stops[n]));
    }
  }

  /** The attachments a body came with. */
  function EntriesOf(b: Body): map<string, Entry> {
    map n | n in b.stubs :: Entry(b.stubs[n].contentType, b.stubs[n].data)
  }

  /** A document's attachments have different names, so it ends up with exactly those it had
      on the server. */
  lemma RestoredCarries(job: Job, b: Body)
    ensures CarriesAll(Restored(job, b), b.doc, AttRecords(job, Split(b)))
    ensures Held(Restored(job, b)) == EntriesOf(b)
  {
    NamesDiffer(b);
    hide AttachAll, CarriesAll, InlinedAt, Split;
    CarriedExactly(b.doc, AttRecords(job, Split(b)));
    HeldEntries(job, b, Restored(job, b));
  }

  lemma HeldEntries(job: Job, b: Body, p: Outgoing)
    requires CarriesAll(p, b.doc, AttRecords(job, Split(b)))
    ensures Held(p) == EntriesOf(b)
  {
    NamesOfStubs(job, b);
    hide Held, Split, EachCarried, Names, Spilled, AttRecords;
    forall n | n in b.stubs
      ensures n in Held(p) && Held(p)[n] == EntriesOf(b)[n]
    {
      EntryHeld(job, b, p, n);
    }
  }

  lemma NamesOfStubs(job: Job, b: Body)
    ensures Names(AttRecords(job, Split(b))) == b.stubs.Keys
  {
    var r, rs := Split(b), AttRecords(job, Split(b));
    hide Split;
    forall n | n in b.stubs
      ensures n in Names(rs)
    {
      var i :| 0 <= i < |r.atts| && r.atts[i].name == n;
      assert rs[i] in rs;
    }
    forall a | a in rs
      ensures a.line.name in b.stubs
    {
      var i :| 0 <= i < |rs| && rs[i] == a;
      assert r.atts[i] in r.atts;
    }
  }

  lemma EntryHeld(job: Job, b: Body, p: Outgoing, n: string)
    requires Attachments(p.uploads) && EachCarried(p, b.doc, AttRecords(job, Split(b))) && n in b.stubs
    ensures n in Held(p) && Held(p)[n] == EntriesOf(b)[n]
  {
    hide Held, InlinedAt, Split;
    var r, rs := Split(b), AttRecords(job, Split(b));
    var i :| 0 <= i < |r.atts| && r.atts[i].name == n;
    assert r.atts[i] in r.atts;
    assert Carries(p, rs[i], InlinedAt(b.doc, rs, i));
  }

  lemma {:induction false} DocumentsCounted(j: Json, rs: seq<Record>)
    requires Ordered(j, rs)
    ensures |Documents(j, rs)| == Count(j, rs).docs
  {
    if rs != [] {
      OrderedFront(j, rs);
      DocumentsCounted(j, rs[..|rs| - 1]);
    }
  }

  // ---------------------------------------------------------------- whole dumps

  /** What a restore of these revisions leaves: each once, in feed order, and each with all
      its attachments. */
  ghost predicate Faithful(job: Job, ds: seq<Outgoing>, revs: seq<Body>) {
    && |ds| == |revs|
    && forall i :: 0 <= i < |revs| ==> Faithfully(job, ds[i], revs[i])
  }

  ghost predicate Faithfully(job: Job, p: Outgoing, b: Body) {
    CarriesAll(p, b.doc, AttRecords(job, Split(b))) && Held(p) == EntriesOf(b)
  }

  lemma RestoredFaithfully(job: Job, revs: seq<Body>)
    ensures Faithful(job, RestoredAll(job, revs), revs)
  {
    hide CarriesAll, Split, Restored, Held;
    forall i | 0 <= i < |revs|
      ensures Faithfully(job, RestoredAll(job, revs)[i], revs[i])
    {
      RestoredCarries(job, revs[i]);
    }
  }

  /** What restore reads of a file, as documents. */
  function DocumentsIn(job: Job, f: Bytes): seq<Outgoing>
    requires job.Valid() && Loads(job.g, job.j, f, true)
  {
    Documents(job.j, ReadAll(job.g, job.j, Source(f, ScanAnswer(job.g, job.j, f).res)).recs)
  }

  /** What restore makes of a file that holds these revisions: it loads exactly when no
      deletion among them has attachments, and then it gives back each of them once, in
      order, with all its attachments. */
  ghost predicate Restores(job: Job, f: Bytes, partial: bool, revs: seq<Body>)
    requires job.Valid()
  {
    && (Loads(job.g, job.j, f, partial) <==> Restorable(job, revs))
    && (Loads(job.g, job.j, f, partial) ==>
          && Loads(job.g, job.j, f, true)
          && DocumentsIn(job, f) == RestoredAll(job, revs) && Faithful(job, DocumentsIn(job, f), revs))
  }

  /** A finished dump restores what it holds; all three footer comparisons pass. */
  lemma FinishedDumpRestores(job: Job, f: Bytes, h: Record, ps: seq<Page>, revs: seq<Body>)
    requires job.Valid() && job.Done(f, h, ps) && job.Content(ps) == job.RevisionsRecords(revs)
    ensures Restores(job, f, false, revs)
  {
    hide Documents, Ordered, RestoredAll, Restorable, Faithful, Job.Content, Job.Members, Job.Finished, Job.RevisionsRecords, CountFrom, IntactPart, Decode, Inflate, Kept;
    var ms := job.Finished(h, ps);
    job.ScanDone(f, h, ps);
    job.FinishedSound(h, ps);
    job.FinishedCount(h, ps);
    ReadPack(job.g, job.j, ms);
    RevisionsHeld(job, Flat(ms), revs);
    RestoredFaithfully(job, revs);
    FirstMember(job, ms);
    assert Flat(ms)[0] == ms[0][0];
  }

  lemma FirstMember(job: Job, ms: seq<seq<Record>>)
    requires job.Valid() && ms != []
    ensures job.g.open(Pack(job.g, job.j, ms)).Member?
  {
    assert job.g.ReadsWhole(Encode(job.j, ms[0]), Pack(job.g, job.j, ms[1..]));
  }

  /** An unfinished dump with a positive Offset never loads without --partial.  With it, it
      restores what it holds up to its last checkpoint, exactly as many documents as Scan
      counted, without touching its torn member. */
  lemma PartialDumpRestores(job: Job, f: Bytes, h: Record, ps: seq<Page>, t: Bytes, m: seq<Record>, revs: seq<Body>)
    requires job.Valid() && job.Unfinished(f, h, ps, t, m) && ps != [] && job.Content(ps) == job.RevisionsRecords(revs)
    ensures ScanAnswer(job.g, job.j, f).Found? && !Loads(job.g, job.j, f, false)
    ensures Restores(job, f, true, revs)
    ensures var res := ScanAnswer(job.g, job.j, f).res;
            && res.offset > 0 && Source(f, res) == Pack(job.g, job.j, job.Members(h, ps))
            && (Loads(job.g, job.j, f, true) ==> |DocumentsIn(job, f)| == res.docs)
  {
    hide Documents, Ordered, RestoredAll, Restorable, Faithful, Job.Content, Job.Members, Job.RevisionsRecords, CountFrom, IntactPart, Decode, Inflate, Kept;
    var ms := job.Members(h, ps);
    job.ScanUnfinished(f, h, ps, t, m);
    job.MembersSound(h, ps);
    job.CountMembers(h, ps);
    ReadPack(job.g, job.j, ms);
    RevisionsHeld(job, Flat(ms), revs);
    RestoredFaithfully(job, revs);
    if Ordered(job.j, Flat(ms)) {
      DocumentsCounted(job.j, Flat(ms));
    }
    FirstMember(job, ms);
    assert Flat(ms)[0] == ms[0][0];
  }

  /** End to end: after any number of interruptions and resumes, with any flags, a dump Scan
      calls complete restores what its runs read of the feed. */
  lemma WhatWasReadRestores(job: Job, files: seq<Bytes>, runs: seq<Args>) returns (starts: seq<nat>, stops: seq<nat>)
    requires job.Valid() && job.Chain(files, runs)
    requires ScanAnswer(job.g, job.j, files[|runs|]).Found? && ScanAnswer(job.g, job.j, files[|runs|]).res.complete
    ensures job.AreStarts(files, runs, starts) && job.AreSpans(starts, stops)
    ensures runs != [] && stops[|runs| - 1] == job.Size()
    ensures Restores(job, files[|runs|], false, SpansRevisions(job, starts, stops))
  {
    hide Loads, SpansRevisions, RestoredAll, Restorable, Faithful, Job.Done, Job.Unfinished, Job.Content, Job.Attempt, Job.AreStarts, Job.Spans, Restores;
    var done, h, ps, t, m;
    done, h, ps, t, m, starts, stops := job.Interruptions(files, runs);
    if done {
      SpansAreRevisions(job, starts, stops);
      FinishedDumpRestores(job, files[|runs|], h, ps, SpansRevisions(job, starts, stops));
    } else {
      job.ScanUnfinished(files[|runs|], h, ps, t, m);
    }
  }

  /** When each run continues a dump begun at p, that is the feed's revisions from p on, each
      once, in feed order, with all their attachments. */
  lemma SinceThenRestored(job: Job, p: nat, files: seq<Bytes>, runs: seq<Args>)
    requires job.Valid() && ChainFrom(job, p, files, runs)
    requires ScanAnswer(job.g, job.j, files[|runs|]).Found? && ScanAnswer(job.g, job.j, files[|runs|]).res.complete
    ensures Restores(job, files[|runs|], false, Revisions(job, p, job.Size()))
  {
    hide Loads, Revisions, RestoredAll, Restorable, Faithful, Job.Done, Job.Unfinished, Job.Content, Job.Attempt, Job.Span, Restores, HoldsFrom, Continues;
    var done, h, ps, t, m := ChainHolds(job, p, files, runs);
    if done {
      SpanIsRevisions(job, p, job.Size());
      FinishedDumpRestores(job, files[|runs|], h, ps, Revisions(job, p, job.Size()));
    } else {
      job.ScanUnfinished(files[|runs|], h, ps, t, m);
    }
  }

  /** And when none is given --since, that is all the feed's. */
  lemma BackedUpThenRestored(job: Job, files: seq<Bytes>, runs: seq<Args>)
    requires job.Valid() && job.Chain(files, runs) && job.Sinceless(runs)
    requires ScanAnswer(job.g, job.j, files[|runs|]).Found? && ScanAnswer(job.g, job.j, files[|runs|]).res.complete
    ensures Restores(job, files[|runs|], false, Revisions(job, 0, job.Size()))
  {
    hide Restores, Revisions, ScanAnswer;
    SincelessContinues(job, files, runs);
    SinceThenRestored(job, 0, files, runs);
  }

  /** A chain whose last run ended has made such a dump. */
  lemma EndedRunRestores(job: Job, files: seq<Bytes>, runs: seq<Args>)
    requires job.Valid() && job.Chain(files, runs) && job.Sinceless(runs) && runs != []
    requires job.Completes(files[|runs| - 1], runs[|runs| - 1], files[|runs|])
    ensures Restores(job, files[|runs|], false, Revisions(job, 0, job.Size()))
  {
    hide Restores, Revisions, Job.Completes, Job.Attempt, ScanAnswer;
    job.EndedRunIsComplete(files, runs);
    BackedUpThenRestored(job, files, runs);
  }

  // ---------------------------------------------------------------- the restored database

  /** A dump's header is in force at its first document, and says how its database was. */
  lemma HeaderInForce(job: Job, f: Bytes, h: Record, ps: seq<Page>)
    requires job.Valid() && job.Done(f, h, ps)
    ensures var read := ReadAll(job.g, job.j, f);
            && HeaderBefore(read.recs) == Some(h.line) && SaysPartitioned(read.recs) == job.partitioned
  {
    hide Job.Content, Job.Members;
    job.FinishedSound(h, ps);
    ReadPack(job.g, job.j, job.Finished(h, ps));
    hide Job.Finished;
    var rs := Flat(job.Finished(h, ps));
    assert rs[0] == h && ReadAll(job.g, job.j, f).recs == rs;
    job.OneHeader(h, ps);
    FirstHeader(rs, h);
  }

  /** With one header, at the front, it is the one. */
  lemma {:induction false} FirstHeader(rs: seq<Record>, h: Record)
    requires rs != [] && rs[0] == h && h.line.Header? && forall i :: 0 < i < |rs| ==> !rs[i].line.Header?
    ensures HeaderBefore(rs) == Some(h.line)
  {
    if |rs| > 1 {
      FirstHeader(rs[..|rs| - 1], h);
    } else {
      assert rs[..0] == [];
    }
  }

  /** A whole restore of a whole backup: from a dump that any chain of runs completed - an
      empty one included - and a server that takes every write, into a target that is fit, all
      that was dumped is in the database, in order, each revision with all its attachments; a
      missing target has been created, partitioned exactly if the database backed up was, and
      an existing one has not. */
  method RestoreOfBackup(job: Job, ghost files: seq<Bytes>, ghost runs: seq<Args>, f: Bytes,
                         batchFlag: int, target: Target, create: bool, merge: bool, accepts: nat -> bool, takes: nat -> bool)
    returns (e: Option<Refusal>, stored: seq<Stored>, created: Option<bool>, ghost starts: seq<nat>, ghost stops: seq<nat>)
    requires job.Valid() && job.Chain(files, runs) && f == files[|runs|]
    requires ScanAnswer(job.g, job.j, f).Found? && ScanAnswer(job.g, job.j, f).res.complete
    requires forall n :: accepts(n) && takes(n)
    ensures job.AreStarts(files, runs, starts) && job.AreSpans(starts, stops)
    ensures var revs := SpansRevisions(job, starts, stops);
            && (e.None? <==> Restorable(job, revs) && if target.Missing? then create else target.docs == 0 || merge)
            && (e.None? ==> InDatabase(stored, revs))
    ensures e.None? ==> created == if target.Missing? then Some(job.partitioned) else None
    ensures target.There? ==> created == None
    ensures (if target.Missing? then !create else target.docs > 0 && !merge) ==> stored == []
  {
    hide Loads, SpansRevisions, Restorable, Job.Chain, Job.AreStarts, Job.Spans, Restores, InDatabase, SaysPartitioned, ScanAnswer, Decode, Documents, Flat, Inflate, Left, Finals, Sendable;
    starts, stops := CompleteDumpReads(job, files, runs);
    ghost var revs := SpansRevisions(job, starts, stops);
    var sent;
    e, sent, stored, created := Run(job.g, job.j, f, false, batchFlag, target, create, merge, accepts, takes);
    LoadsOrNot(job, f, revs);
    if e.None? {
      StoredFaithfully(job, f, stored, revs);
    }
  }

  lemma LoadsOrNot(job: Job, f: Bytes, revs: seq<Body>)
    requires job.Valid() && Restores(job, f, false, revs)
    ensures Loads(job.g, job.j, f, false) <==> Restorable(job, revs)
    ensures Loads(job.g, job.j, f, false) ==> Loads(job.g, job.j, f, true)
  {
    hide Loads, Restorable, DocumentsIn, RestoredAll, Faithful;
  }

  /** What restore finds in the dump of any chain that completed it. */
  lemma CompleteDumpReads(job: Job, files: seq<Bytes>, runs: seq<Args>) returns (starts: seq<nat>, stops: seq<nat>)
    requires job.Valid() && job.Chain(files, runs)
    requires ScanAnswer(job.g, job.j, files[|runs|]).Found? && ScanAnswer(job.g, job.j, files[|runs|]).res.complete
    ensures job.AreStarts(files, runs, starts) && job.AreSpans(starts, stops)
    ensures Restores(job, files[|runs|], false, SpansRevisions(job, starts, stops))
    ensures var f := files[|runs|];
            && Source(f, ScanAnswer(job.g, job.j, f).res) == f
            && SaysPartitioned(ReadAll(job.g, job.j, f).recs) == job.partitioned
  {
    hide Loads, SpansRevisions, Job.Done, Job.Unfinished, Job.Content, Job.Attempt, Job.Spans, Restores, SaysPartitioned, ReadAll;
    var done, h, ps, t, m;
    done, h, ps, t, m, starts, stops := job.Interruptions(files, runs);
    if done {
      SpansAreRevisions(job, starts, stops);
      FinishedDumpRestores(job, files[|runs|], h, ps, SpansRevisions(job, starts, stops));
      HeaderInForce(job, files[|runs|], h, ps);
    } else {
      job.ScanUnfinished(files[|runs|], h, ps, t, m);
    }
  }

  /** The database holds exactly these revisions, in order, with their attachments. */
  ghost predicate InDatabase(stored: seq<Stored>, revs: seq<Body>) {
    && |stored| == |revs|
    && forall i :: 0 <= i < |revs| ==> stored[i].body == revs[i].doc && stored[i].atts == EntriesOf(revs[i])
  }

  lemma StoredFaithfully(job: Job, f: Bytes, stored: seq<Stored>, revs: seq<Body>)
    requires job.Valid() && Restores(job, f, false, revs) && Loads(job.g, job.j, f, false)
    requires Sendable(DocumentsIn(job, f)) && stored == Finals(DocumentsIn(job, f))
    ensures InDatabase(stored, revs)
  {
    hide Loads, RestoredAll, Restorable, EntriesOf, Held, CarriesAll;
    var ds := DocumentsIn(job, f);
    hide DocumentsIn;
    forall i | 0 <= i < |revs|
      ensures stored[i].body == revs[i].doc && stored[i].atts == EntriesOf(revs[i])
    {
      assert Faithfully(job, ds[i], revs[i]);
      BodyCarried(job, ds[i], revs[i]);
      assert ds[i] in ds;
      FinalIsHeld(ds[i]);
    }
  }

  lemma BodyCarried(job: Job, p: Outgoing, b: Body)
    requires Faithfully(job, p, b)
    ensures p.body == b.doc && Held(p) == EntriesOf(b)
  {
  }
}
