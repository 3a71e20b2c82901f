/** One run of the backup command, statement by statement (internal/command/backup.go). */
module BackupRun {
  import opened Wrappers
  import opened DumpFormat
  import opened DumpScan
  import opened DumpFile
  import opened DumpWriter
  import opened Backup
  import opened SplitAttachments

  datatype Outcome =
    | Wrote           // a complete dump
    | Stopped         // a server, disk or operator ended the run early
    | NothingToResume
    | AlreadyExists
    | NoSuchFile
    | ForeignFile     // Scan says it is no dump
    | NewerFormat
    | OtherMode       // written with, or without, tombstones

  /** os.Truncate behind its guard: an offset past the end would pad the dump with zeros. */
  function Truncate(f: Bytes, offset: int): Option<Bytes> {
    if offset < 0 || offset > |f| then None else Some(f[..offset])
  }

  lemma EncodePrefix(j: Json, a: seq<Record>, b: seq<Record>)
    requires a <= b
    ensures Encode(j, a) <= Encode(j, b)
  {
    EncodeAppend(j, a, b[|a|..]);
    assert b == a + b[|a|..];
  }

  /** One document and its attachments.  `m` is the member being written. */
  method WriteRevision(job: Job, w: Writer, body: Revision, t: Tally, ghost m: seq<Record>) returns (ok: bool, t': Tally)
    requires w.Valid() && w.err.None? && w.j == job.j
    requires w.open + job.RevisionRecords(body) <= m
    modifies w, w.world
    ensures w.Valid() && w.members == old(w.members) && w.file == old(w.file)
    ensures old(w.world.asked) <= w.world.asked && (ok <==> w.world.Smooth(old(w.world.asked)))
    ensures ok ==> w.err.None? && w.open == old(w.open) + job.RevisionRecords(body)
    ensures ok ==> t' == CountFrom(job.j, t, job.RevisionRecords(body))
    ensures w.gz <= Encode(w.j, m)
  {
    hide Encode, CountFrom, Sound, Pack, AllWellFormed, Job.RevisionRecords, Bump;
    ghost var open, recs := w.open, job.RevisionRecords(body);
    t' := t;
    assert w.gz <= Encode(w.j, m) by { EncodePrefix(w.j, open, m); }
    var e := w.WriteRecord(Doc(body.doc));
    if e.Some? {
      return false, t';
    }
    DocCounted(job, body, t);
    assert w.open == open + recs[..1];
    t' := t'.(docs := t'.docs + 1, bytes := t'.bytes + |body.doc|);
    if job.j.isTombstone(body.doc) {
      t' := t'.(deleted := t'.deleted + 1);
    }
    for i := 0 to |body.atts|
      invariant w.Valid() && w.err.None? && w.members == old(w.members) && w.file == old(w.file)
      invariant old(w.world.asked) <= w.world.asked && w.world.Smooth(old(w.world.asked))
      invariant w.open == open + recs[..i + 1]
      invariant t' == CountFrom(job.j, t, recs[..i + 1])
    {
      var a := body.atts[i];
      var rec := job.AttRecord(body.doc, a);
      AttCounted(job, body, t, i);
      RecordFits(w.j, open, recs, i + 1, m);
      var lost := w.world.Fails();
      if lost {
        return false, t'; // the attachment could not be fetched
      }
      assert a.data[..|a.data|] == a.data;
      e := w.WriteAttachment(rec.line, a.data);
      if e.Some? {
        return false, t';
      }
      t' := t'.(atts := t'.atts + 1, bytes := t'.bytes + |a.data|);
    }
    AllCounted(job, body);
    EncodePrefix(w.j, w.open, m);
    return true, t';
  }

  lemma DocCounted(job: Job, body: Revision, t: Tally)
    ensures var recs := job.RevisionRecords(body);
            && |recs| == |body.atts| + 1 && recs[..1] == [Record(Doc(body.doc), [])]
            && CountFrom(job.j, t, recs[..1]) ==
               t.(docs := t.docs + 1, bytes := t.bytes + |body.doc|, deleted := t.deleted + if job.j.isTombstone(body.doc) then 1 else 0)
  {
    var recs := job.RevisionRecords(body);
    assert recs[..1] == [] + [recs[0]];
    CountSnoc(job.j, t, [], recs[0]);
    job.CountNone(t);
  }

  lemma AttCounted(job: Job, body: Revision, t: Tally, i: nat)
    requires i < |body.atts|
    ensures var recs, a := job.RevisionRecords(body), body.atts[i];
            && i + 1 < |recs| && recs[i + 1] == job.AttRecord(body.doc, a) && recs[..i + 2] == recs[..i + 1] + [recs[i + 1]]
            && var t' := CountFrom(job.j, t, recs[..i + 1]);
               CountFrom(job.j, t, recs[..i + 2]) == t'.(atts := t'.atts + 1, bytes := t'.bytes + |a.data|)
  {
    hide CountFrom;
    var recs := job.RevisionRecords(body);
    assert recs[..i + 2] == recs[..i + 1] + [recs[i + 1]];
    CountSnoc(job.j, t, recs[..i + 1], recs[i + 1]);
  }

  lemma AllCounted(job: Job, body: Revision)
    ensures job.RevisionRecords(body)[..|body.atts| + 1] == job.RevisionRecords(body)
  {
  }

  /** The next record still belongs to the member. */
  lemma RecordFits(j: Json, open: seq<Record>, recs: seq<Record>, i: nat, m: seq<Record>)
    requires i < |recs| && open + recs <= m
    ensures Encode(j, open + recs[..i]) + EncodeOne(j, recs[i]) <= Encode(j, m)
    ensures open + recs[..i] + [recs[i]] == open + recs[..i + 1]
  {
    hide Encode;
    EncodeAppend(j, open + recs[..i], [recs[i]]);
    EncodeOneAlone(j, recs[i]);
    assert open + recs[..i] + [recs[i]] == open + recs[..i + 1] <= m;
    EncodePrefix(j, open + recs[..i + 1], m);
  }

  lemma EncodeOneAlone(j: Json, r: Record)
    ensures Encode(j, [r]) == EncodeOne(j, r)
  {
  }

  /** The references of one page of the feed, as _bulk_get answers them. */
  method Fetch(job: Job, a: nat, e: nat) returns (bodies: seq<Body>)
    requires a <= e <= job.Size()
    ensures job.RevisionsRecords(bodies) == job.Span(a, e)
  {
    job.SpanNothing(a);
    job.NoRevisions();
    hide Job.Span, Job.RevisionsRecords;
    bodies := [];
    for i := a to e
      invariant job.RevisionsRecords(bodies) == job.Span(a, i)
    {
      RowFetched(job, a, i, bodies);
      var row := job.s.feed[i];
      if row.deleted && !job.tombstones {
        continue;
      }
      bodies := bodies + row.revs;
    }
  }

  lemma RowFetched(job: Job, a: nat, i: nat, bodies: seq<Body>)
    requires a <= i < job.Size() && job.RevisionsRecords(bodies) == job.Span(a, i)
    ensures var row := job.s.feed[i];
            job.RevisionsRecords(if row.deleted && !job.tombstones then bodies else bodies + row.revs) == job.Span(a, i + 1)
  {
    job.SpanSnoc(a, i);
    job.RevisionsAppend(bodies, job.s.feed[i].revs);
    hide Job.Span, Job.RevisionsRecords;
    assert job.Span(a, i) + [] == job.Span(a, i);
  }

  /** One more body's records, seen from what is open and from all that is to come. */
  lemma BodiesOn(job: Job, open: seq<Record>, bodies: seq<Body>, i: nat)
    requires i < |bodies|
    ensures var before, one := job.RevisionsRecords(bodies[..i]), job.RevisionRecords(Split(bodies[i]));
            && job.RevisionsRecords(bodies[..i + 1]) == before + one
            && open + before + one == open + (before + one) <= open + job.RevisionsRecords(bodies)
  {
    hide Split, Job.RevisionRecords;
    var before, one := job.RevisionsRecords(bodies[..i]), job.RevisionRecords(Split(bodies[i]));
    assert bodies[..i + 1] == bodies[..i] + [bodies[i]] && bodies == bodies[..i + 1] + bodies[i + 1..];
    job.RevisionsSnoc(bodies[..i], bodies[i]);
    job.RevisionsAppend(bodies[..i + 1], bodies[i + 1..]);
    hide Job.RevisionsRecords;
    Associate(open, before, one);
    Associate(open, before + one, job.RevisionsRecords(bodies[i + 1..]));
  }

  /** The documents of one batch. */
  method WriteBodies(job: Job, w: Writer, bodies: seq<Body>, t: Tally, ghost m: seq<Record>) returns (ok: bool, t': Tally)
    requires w.Valid() && w.err.None? && w.j == job.j
    requires w.open + job.RevisionsRecords(bodies) <= m
    modifies w, w.world
    ensures w.Valid() && w.members == old(w.members) && w.file == old(w.file)
    ensures old(w.world.asked) <= w.world.asked && (ok <==> w.world.Smooth(old(w.world.asked)))
    ensures ok ==> w.err.None? && w.open == old(w.open) + job.RevisionsRecords(bodies)
    ensures ok ==> t' == CountFrom(job.j, t, job.RevisionsRecords(bodies))
    ensures w.gz <= Encode(w.j, m)
  {
    hide Encode, CountFrom, Split, Job.RevisionRecords, Sound, Pack;
    ghost var open := w.open;
    t' := t;
    assert bodies[..0] == [];
    job.CountNone(t);
    EncodePrefix(w.j, open, m);
    for i := 0 to |bodies|
      invariant w.Valid() && w.err.None? && w.members == old(w.members) && w.file == old(w.file)
      invariant old(w.world.asked) <= w.world.asked && w.world.Smooth(old(w.world.asked))
      invariant w.open == open + job.RevisionsRecords(bodies[..i])
      invariant t' == CountFrom(job.j, t, job.RevisionsRecords(bodies[..i]))
      invariant w.gz <= Encode(w.j, m)
    {
      BodiesOn(job, open, bodies, i);
      CountAppend(job.j, t, job.RevisionsRecords(bodies[..i]), job.RevisionRecords(Split(bodies[i])));
      var revision := SplitBody(bodies[i]);
      ok, t' := WriteRevision(job, w, revision, t', m);
      if !ok {
        return;
      }
    }
    assert bodies[..|bodies|] == bodies;
    return true, t';
  }

  /** How far a run got when it stopped: whole members, and part of the next. */
  ghost predicate Partway(w: Writer, plan: seq<seq<Record>>)
    reads w
  {
    |w.members| < |plan| && w.members == plan[..|w.members|] && w.gz <= Encode(w.j, plan[|w.members|])
  }

  /** One page of the feed: its documents, then a checkpoint that closes the member. */
  method WritePage(job: Job, w: Writer, ghost h: Record, ghost opening: bool, pos: nat, e: nat, t: Tally) returns (ok: bool, t': Tally)
    requires w.Valid() && w.err.None? && w.j == job.j && pos <= e <= job.Size()
    requires w.open == job.Opening(h, opening)
    modifies w, w.world
    ensures w.Valid() && old(w.world.asked) <= w.world.asked && (ok <==> w.world.Smooth(old(w.world.asked)))
    ensures var m := job.PageMember(h, opening, pos, e);
            if ok then
              w.err.None? && w.members == old(w.members) + [m] && w.open == [] && t' == CountFrom(job.j, t, job.Span(pos, e))
            else
              w.members == old(w.members) && w.gz <= Encode(w.j, m)
  {
    hide Encode, CountFrom, Pack, Job.Span, Job.RevisionsRecords, Sound, AllWellFormed;
    ghost var m := job.PageMember(h, opening, pos, e);
    EncodePrefix(w.j, w.open, m);
    var bodies := Fetch(job, pos, e);
    var lost := w.world.Fails();
    if lost {
      return false, t; // a revision could not be fetched
    }
    ok, t' := WriteBodies(job, w, bodies, t, m);
    if !ok {
      return;
    }
    EncodePrefix(w.j, w.open, m);
    var failed := w.WriteCheckpoint(job.s.token(e));
    if failed.Some? {
      EncodePrefix(w.j, w.open, m);
      return false, t';
    }
  }

  /** The footer, in a member of its own or behind a header that was never checkpointed. */
  method WriteEnd(job: Job, w: Writer, ghost h: Record, ghost opening: bool, t: Tally, lastSeq: string) returns (ok: bool)
    requires w.Valid() && w.err.None? && w.j == job.j
    requires w.open == job.Opening(h, opening) && lastSeq == job.s.token(job.Size())
    modifies w, w.world
    ensures w.Valid() && old(w.world.asked) <= w.world.asked && (ok <==> w.world.Smooth(old(w.world.asked)))
    ensures var m := job.Opening(h, opening) + [job.FooterRecord(t)];
            if ok then w.members == old(w.members) + [m] else w.members == old(w.members) && w.gz <= Encode(w.j, m)
  {
    hide Encode, Pack;
    EncodePrefix(w.j, w.open, w.open + [job.FooterRecord(t)]);
    var e := w.WriteRecord(Footer(t.docs, t.deleted, t.atts, lastSeq));
    if e.Some? {
      return false;
    }
    e := w.CloseMember();
    return e.None?;
  }

  lemma SplitPlan<T>(plan: seq<T>, done: seq<T>, rest: seq<T>)
    requires plan == done + rest && rest != []
    ensures |done| < |plan| && plan[..|done|] == done && plan[|done|] == rest[0]
    ensures plan == (done + [rest[0]]) + rest[1..]
  {
  }

  /** The header of a dump that starts from nothing. */
  method WriteStart(job: Job, a: Args, w: Writer, anew: bool) returns (ok: bool)
    requires w.Valid() && w.err.None? && w.members == [] && w.open == [] && w.gz == [] && w.j == job.j
    modifies w, w.world
    ensures w.Valid() && old(w.world.asked) <= w.world.asked && (ok <==> w.world.Smooth(old(w.world.asked)))
    ensures w.members == [] && if ok then w.err.None? && w.open == job.Opening(job.HeaderRecord(a), anew) else w.gz == []
  {
    if anew {
      var e := w.WriteRecord(job.HeaderRecord(a).line);
      if e.Some? {
        return false;
      }
    }
    return true;
  }

  /** The loop over the feed: page, fetch, write, checkpoint, until it is exhausted. */
  method WritePages(job: Job, a: Args, w: Writer, ghost plan: seq<seq<Record>>, anew: bool, since: string, counters: Tally)
    returns (ok: bool, lastSeq: string, t: Tally, ghost opening: bool)
    requires job.Valid() && a.batch > 0
    requires w.Valid() && w.err.None? && w.members == [] && w.j == job.j && w.open == job.Opening(job.HeaderRecord(a), anew)
    requires plan == job.Plan(job.HeaderRecord(a), a.batch, anew, job.s.position(since), counters)
    modifies w, w.world
    ensures w.Valid() && old(w.world.asked) <= w.world.asked && (ok <==> w.world.Smooth(old(w.world.asked)))
    ensures if ok
            then
              && w.err.None? && w.open == job.Opening(job.HeaderRecord(a), opening) && lastSeq == job.s.token(job.Size())
              && plan == w.members + job.Plan(job.HeaderRecord(a), a.batch, opening, job.Size(), t)
            else Partway(w, plan)
  {
    hide Encode, CountFrom, Pack, Gzip.Valid, Json.Valid, Job.Plan, Job.Span, Job.PageMember, Sound, AllWellFormed;
    hide Job.CheckpointRecord, Job.FooterRecord;
    lastSeq, t, opening := since, counters, anew;
    ghost var h := job.HeaderRecord(a);
    while true
      invariant w.Valid() && w.err.None?
      invariant old(w.world.asked) <= w.world.asked && w.world.Smooth(old(w.world.asked))
      invariant w.open == job.Opening(h, opening)
      invariant plan == w.members + job.Plan(h, a.batch, opening, job.s.position(lastSeq), t)
      decreases job.Size() - job.s.position(lastSeq)
    {
      var pos := job.s.position(lastSeq);
      PlanOn(job, h, a.batch, opening, pos, t, plan, w.members);
      EncodePrefix(w.j, w.open, plan[|w.members|]);
      var lost := w.world.Fails();
      if lost {
        return false, lastSeq, t, opening; // the feed could not be read
      }
      var e := Min(pos + a.batch, job.Size());
      var pageLast, pageRows, pagePending := job.s.token(e), e - pos, job.Size() - e;
      if pageRows == 0 {
        lastSeq := pageLast;
        break;
      }
      ok, t := WritePage(job, w, h, opening, pos, e, t);
      if !ok {
        return;
      }
      lastSeq, opening := pageLast, false;
      if pagePending == 0 && pageRows < a.batch {
        break;
      }
    }
    return true, lastSeq, t, opening;
  }

  /** The run: the header if need be, the pages, and then the footer.  Whatever stops it, what
      it wrote is a part of Plan. */
  method RunLoop(job: Job, a: Args, w: Writer, anew: bool, since: string, counters: Tally) returns (ok: bool)
    requires job.Valid() && a.batch > 0
    requires w.Valid() && w.err.None? && w.members == [] && w.open == [] && w.gz == [] && w.j == job.j
    modifies w, w.world
    ensures w.Valid() && old(w.world.asked) <= w.world.asked && (ok <==> w.world.Smooth(old(w.world.asked)))
    ensures var plan := job.Plan(job.HeaderRecord(a), a.batch, anew, job.s.position(since), counters);
            if ok then w.members == plan else Partway(w, plan)
  {
    hide Encode, CountFrom, Pack, Gzip.Valid, Json.Valid, Job.Plan, Job.Span, Sound, AllWellFormed, Job.Opening, Job.FooterRecord;
    ghost var h := job.HeaderRecord(a);
    ghost var plan := job.Plan(h, a.batch, anew, job.s.position(since), counters);
    assert [] <= Encode(w.j, plan[0]) && plan[..0] == [];
    ok := WriteStart(job, a, w, anew);
    if !ok {
      return;
    }
    var lastSeq, t;
    ghost var opening;
    ok, lastSeq, t, opening := WritePages(job, a, w, plan, anew, since, counters);
    if !ok {
      return;
    }
    PlanOn(job, h, a.batch, opening, job.Size(), t, plan, w.members);
    ok := WriteEnd(job, w, h, opening, t, lastSeq);
  }

  /** What is next of a plan of which `done` is done. */
  lemma PlanOn(job: Job, h: Record, batch: nat, opening: bool, pos: nat, t: Tally, plan: seq<seq<Record>>, done: seq<seq<Record>>)
    requires pos <= job.Size() && batch > 0 && plan == done + job.Plan(h, batch, opening, pos, t)
    ensures |done| < |plan| && plan[..|done|] == done && job.Opening(h, opening) <= plan[|done|]
    ensures pos < job.Size() ==>
              var e := Min(pos + batch, job.Size());
              && plan[|done|] == job.PageMember(h, opening, pos, e)
              && plan == (done + [plan[|done|]]) + job.Plan(h, batch, false, e, CountFrom(job.j, t, job.Span(pos, e)))
    ensures pos == job.Size() ==> plan == done + [plan[|done|]] && plan[|done|] == job.Opening(h, opening) + [job.FooterRecord(t)]
  {
    var rest := job.Plan(h, batch, opening, pos, t);
    job.PlanOpens(h, batch, opening, pos, t);
    if pos < job.Size() {
      job.PlanPage(h, batch, opening, pos, t);
    } else {
      job.PlanEnd(h, batch, opening, t);
    }
    hide Job.Plan, Job.Span, CountFrom, Job.PageMember;
    SplitPlan(plan, done, rest);
    if pos < job.Size() {
      var e := Min(pos + batch, job.Size());
      assert rest[1..] == job.Plan(h, batch, false, e, CountFrom(job.j, t, job.Span(pos, e)));
    }
  }

  /** The run as its flags make it; `server` and `started` are what the server and the clock
      answer. */
  function ArgsOf(sinceFlag: string, batchFlag: int, server: string, started: string): (a: Args)
    ensures a.since == sinceFlag && a.server == server && a.started == started
    ensures a.batch == if batchFlag > 0 then batchFlag else 200
  {
    Args(sinceFlag, BatchSize(batchFlag), server, started)
  }

  /** backup <db> <file>, with or without --resume and --since.  `lag` is how much of the open
      member the compressor had pushed to disk when the run stopped.  Which refusal a run gives,
      and when it starts, is settled by the flags and the file; a refusal leaves the file as
      it was; a run that starts is an Attempt; it says so, having written all its plan, exactly
      when nothing failed. */
  method Run(job: Job, existing: Option<Bytes>, resume: bool, sinceFlag: string, batchFlag: int,
             server: string, started: string, world: World, lag: nat)
    returns (out: Outcome, disk: Option<Bytes>)
    requires job.Valid()
    modifies world
    ensures out == AlreadyExists <==> !resume && existing.Some?
    ensures out == NoSuchFile <==> resume && existing.None?
    ensures out == ForeignFile <==> resume && existing.Some? && ScanAnswer(job.g, job.j, existing.value).NotADump?
    ensures out == NewerFormat <==> resume && existing.Some? && ScanAnswer(job.g, job.j, existing.value).Refused?
    ensures out == OtherMode <==>
            && resume && existing.Some? && ScanAnswer(job.g, job.j, existing.value).Found?
            && var res := ScanAnswer(job.g, job.j, existing.value).res;
               res.offset > 0 && res.tombstones != job.tombstones
    ensures out == NothingToResume <==>
            && resume && existing.Some? && ScanAnswer(job.g, job.j, existing.value).Found?
            && var res := ScanAnswer(job.g, job.j, existing.value).res;
               res.complete && (res.offset > 0 ==> res.tombstones == job.tombstones)
    ensures out in {Wrote, Stopped} <==> if resume then existing.Some? && job.Accepts(existing.value) else existing.None?
    ensures out in {Wrote, Stopped} ==> (out == Wrote <==> world.Smooth(old(world.asked)))
    ensures out !in {Wrote, Stopped} ==> disk == existing
    ensures out in {Wrote, Stopped} ==>
              && disk.Some?
              && var before, a := if resume then existing.value else [], ArgsOf(sinceFlag, batchFlag, server, started);
                 && job.Attempt(before, a, disk.value)
                 && (out == Wrote ==> job.Completes(before, a, disk.value))
  {
    hide Encode, CountFrom, Pack, Job.Plan, Job.Span;
    var a := ArgsOf(sinceFlag, batchFlag, server, started);
    var base, res := [], FRESH_START;
    if resume {
      if existing.None? {
        return NoSuchFile, existing;
      }
      var scanned := Scan(job.g, job.j, existing.value);
      match scanned {
        case Refused(_) => return NewerFormat, existing;
        case NotADump => return ForeignFile, existing;
        case Found(r) => res := r;
      }
      if res.offset > 0 && res.tombstones != job.tombstones {
        return OtherMode, existing;
      }
      if res.complete {
        return NothingToResume, existing;
      }
      var cut := Truncate(existing.value, res.offset);
      OffsetWithin(job, existing.value);
      base := cut.value;
    } else if existing.Some? {
      return AlreadyExists, existing;
    }
    ghost var before := if resume then existing.value else [];
    assert ScanAnswer(job.g, job.j, before) == Found(res);
    assert base == job.Base(before);
    var w := new Writer(job.g, job.j, base, world);
    var since := if sinceFlag == "" then res.seqno else sinceFlag;
    ghost var plan := job.PlanFor(before, a);
    var ok := RunLoop(job, a, w, res.offset == 0, since, job.Counters(res));
    if ok {
      return Wrote, Some(w.file);
    }
    var pushed := job.g.pack(w.gz);
    ghost var k := |w.members|;
    job.PlanSound(job.HeaderRecord(a), a.batch, res.offset == 0, job.s.position(since), job.Counters(res));
    assert job.g.ReadsWhole(w.gz, []);
    var t := pushed[..Min(lag, |pushed| - 1)];
    assert job.StoppedIn(base, plan, k, t, w.file + t);
    return Stopped, Some(w.file + t);
  }

  function BatchSize(flag: int): (n: nat)
    ensures n > 0 && (flag <= 0 ==> n == 200) && (flag > 0 ==> n == flag)
  {
    if flag <= 0 then BACKUP_BATCH_SIZE else flag
  }

  /** Scan never points past the end of the file, so Truncate never refuses it. */
  lemma OffsetWithin(job: Job, f: Bytes)
    requires job.Valid() && ScanAnswer(job.g, job.j, f).Found?
    ensures ScanAnswer(job.g, job.j, f).res.offset <= |f|
  {
  }
}
