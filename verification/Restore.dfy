/** The restore command (internal/command/restore.go): a streaming batcher over a dump's
    records, with three running totals and a byte bound. */
module Restore {
  import opened Wrappers
  import opened DumpFormat
  import opened DumpScan
  import opened DumpFile
  import opened RestoreRule
  import opened RestoreTarget

  const RESTORE_BATCH_SIZE := 200

  function SumBytes(vs: seq<Outgoing>): nat {
    if vs == [] then 0 else SumBytes(vs[..|vs| - 1]) + vs[|vs| - 1].bytes
  }

  function SumInline(vs: seq<Outgoing>): nat {
    if vs == [] then 0 else SumInline(vs[..|vs| - 1]) + vs[|vs| - 1].inlineBytes
  }

  datatype Problem =
    | Misplaced        // an attachment whose document is not the one before it
    | AfterDeletion
    | NegativeLength
    | ShortPayload
    | Unwritten        // a bulk write or an upload that had to go out first failed

  /** The batch totals: both are sums over the pending documents, their base64 fits in one
      request, and all but the last document stay under the byte bound. */
  predicate Balanced(vs: seq<Outgoing>, pendingBytes: nat, inlineBytes: nat) {
    && pendingBytes == SumBytes(vs)
    && inlineBytes == SumInline(vs) <= BATCH_BYTES
    && (vs != [] ==> SumBytes(vs[..|vs| - 1]) < BATCH_BYTES)
  }

  lemma BalancedSnoc(vs: seq<Outgoing>, v: Outgoing)
    requires SumBytes(vs) < BATCH_BYTES && SumInline(vs) + v.inlineBytes <= BATCH_BYTES
    ensures Balanced(vs + [v], SumBytes(vs) + v.bytes, SumInline(vs) + v.inlineBytes)
  {
    assert (vs + [v])[..|vs|] == vs;
  }

  /** What one request may carry: base64 within the bound, and all but its last document
      under it. */
  predicate Fits(vs: seq<Outgoing>) {
    SumInline(vs) <= BATCH_BYTES && (vs != [] ==> SumBytes(vs[..|vs| - 1]) < BATCH_BYTES)
  }

  lemma NothingPending(written: seq<Outgoing>)
    ensures Sendable([]) && Balanced([], 0, 0) && written + [] == written
  {
  }

  lemma FitsPending(vs: seq<Outgoing>, pendingBytes: nat, inlineBytes: nat)
    requires Balanced(vs, pendingBytes, inlineBytes)
    ensures Fits(vs)
  {
  }

  function AllButLast<T>(ds: seq<T>): seq<T> {
    if ds == [] then [] else ds[..|ds| - 1]
  }

  /** No bulk write is empty, longer than a batch, or too large. */
  ghost predicate Batched(sent: seq<seq<Outgoing>>, batch: nat) {
    forall b :: b in sent ==> 0 < |b| <= batch && Fits(b)
  }

  /** That is: no more than so many documents, no more than 16 MiB of base64, and below 16 MiB
      in all but the last. */
  lemma BatchedMeans(sent: seq<seq<Outgoing>>, batch: nat)
    ensures Batched(sent, batch) <==>
            forall b :: b in sent ==> 0 < |b| <= batch && SumInline(b) <= 16 * 1024 * 1024 && SumBytes(b[..|b| - 1]) < 16 * 1024 * 1024
  {
    hide SumInline, SumBytes;
  }

  lemma BatchedSnoc(sent: seq<seq<Outgoing>>, b: seq<Outgoing>, batch: nat)
    requires Batched(sent, batch) && |b| <= batch && Fits(b)
    ensures b != [] ==> Batched(sent + [b], batch)
  {
    hide Fits;
  }

  /** While there is room nothing is sent and the documents wait; otherwise only the last is
      left waiting. */
  ghost predicate Waits<T>(room: bool, before: seq<seq<T>>, after: seq<seq<T>>, would: nat, waiting: nat) {
    if room then after == before && waiting == would else waiting == 1
  }

  /** The server's first n answers are yes. */
  ghost predicate AllYes(answers: nat -> bool, n: nat) {
    forall k :: 0 <= k < n ==> answers(k)
  }

  lemma OneMoreYes(answers: nat -> bool, n: nat)
    requires AllYes(answers, n) && answers(n)
    ensures AllYes(answers, n + 1)
  {
  }

  /** Bulk writes done with: within bounds, taken, and all their uploads taken. */
  ghost predicate DoneWith(sent: seq<seq<Outgoing>>, batch: nat, accepts: nat -> bool, takes: nat -> bool) {
    && Batched(sent, batch) && Sendable(Flat(sent)) && AllYes(accepts, |sent|)
    && AllYes(takes, UploadsOf(Flat(sent)))
  }

  /** Of the documents ds, those behind the ones in `sent` are not there if the bulk write was
      refused, and are but for their uploads from the one refused on if that was. */
  ghost predicate Broken(sent: seq<seq<Outgoing>>, stored: seq<Stored>, puts: nat, accepts: nat -> bool, takes: nat -> bool, ds: seq<Outgoing>) {
    if accepts(|sent|) then UploadsOf(Flat(sent)) <= puts < UploadsOf(ds) && !takes(puts)
    else Sendable(Flat(sent)) && stored == Finals(Flat(sent)) && puts == UploadsOf(Flat(sent))
  }

  lemma DoneParts(sent: seq<seq<Outgoing>>, batch: nat, accepts: nat -> bool, takes: nat -> bool, docs: seq<Outgoing>)
    requires DoneWith(sent, batch, accepts, takes)
    ensures AllYes(takes, UploadsOf(Flat(sent))) && Sendable(Flat(sent))
    ensures Sendable(docs) ==> Sendable(Flat(sent) + docs)
    ensures UploadsOf(Flat(sent) + docs) == UploadsOf(Flat(sent)) + UploadsOf(docs)
  {
    hide Sendable, UploadsOf, Flat, AllYes, Batched;
    UploadsAppend(Flat(sent), docs);
    SendableParts(Flat(sent), docs);
  }

  lemma DoneMore(sent: seq<seq<Outgoing>>, batch: nat, accepts: nat -> bool, takes: nat -> bool, b: seq<Outgoing>)
    requires DoneWith(sent, batch, accepts, takes) && 0 < |b| <= batch && Fits(b) && Sendable(b) && accepts(|sent|)
    requires Flat(sent + [b]) == Flat(sent) + b && AllYes(takes, UploadsOf(Flat(sent)) + UploadsOf(b))
    ensures DoneWith(sent + [b], batch, accepts, takes)
  {
    hide Sendable, UploadsOf, Flat, AllYes, Batched, Fits;
    BatchedSnoc(sent, b, batch);
    UploadsAppend(Flat(sent), b);
    SendableParts(Flat(sent), b);
    OneMoreYes(accepts, |sent|);
  }

  lemma TurnedAway(sent: seq<seq<Outgoing>>, stored: seq<Stored>, puts: nat, accepts: nat -> bool, takes: nat -> bool, ds: seq<Outgoing>)
    requires !accepts(|sent|) && Sendable(Flat(sent)) && stored == Finals(Flat(sent)) && puts == UploadsOf(Flat(sent))
    ensures Broken(sent, stored, puts, accepts, takes, ds)
  {
  }

  lemma Halfway(sent: seq<seq<Outgoing>>, stored: seq<Stored>, puts: nat, accepts: nat -> bool, takes: nat -> bool, ds: seq<Outgoing>)
    requires accepts(|sent|) && UploadsOf(Flat(sent)) <= puts < UploadsOf(ds) && !takes(puts)
    ensures Broken(sent, stored, puts, accepts, takes, ds)
  {
  }

  /** The database as the bulk writes and uploads leave it. */
  class Database {
    const accepts: nat -> bool   // the server's answer to each bulk write in turn
    const takes: nat -> bool     // and to each upload
    var sent: seq<seq<Outgoing>> // the bulk writes done with, their uploads made
    var stored: seq<Stored>      // what it holds
    var puts: nat                // uploads made

    constructor (accepts: nat -> bool, takes: nat -> bool)
      ensures this.accepts == accepts && this.takes == takes && sent == [] && stored == [] && puts == 0
    {
      this.accepts, this.takes := accepts, takes;
      sent, stored, puts := [], [], 0;
    }

    ghost predicate Sent(batch: nat)
      reads this
    {
      DoneWith(sent, batch, accepts, takes)
    }

    ghost predicate Written(batch: nat)
      reads this
    {
      Sent(batch) && stored == Finals(Flat(sent)) && puts == UploadsOf(Flat(sent))
    }

    /** The bulk write or the upload that comes next fails. */
    predicate Failing()
      reads this
    {
      !accepts(|sent|) || (!takes(puts) && puts >= UploadsOf(Flat(sent)))
    }

    /** Writing failed: what was done with is as it was, and of ds the database holds the
        first documents, the last of them with part of their uploads. */
    ghost predicate Failed(batch: nat, before: seq<seq<Outgoing>>, ds: seq<Outgoing>)
      reads this
    {
      sent == before && Sent(batch) && Failing() && Landed(stored, ds) && Broken(sent, stored, puts, accepts, takes, ds)
    }

    /** writeBatch: nothing for an empty batch, one bulk write otherwise, and then the
        uploads of its documents. */
    method WriteBatch(docs: seq<Outgoing>, ghost batch: nat) returns (ok: bool)
      requires Written(batch) && |docs| <= batch && Fits(docs) && Sendable(docs)
      modifies this
      ensures ok ==> Written(batch) && sent == (if docs == [] then old(sent) else old(sent) + [docs]) && Flat(sent) == old(Flat(sent)) + docs
      ensures !ok ==> Failed(batch, old(sent), old(Flat(sent)) + docs)
    {
      hide Fits, Flat, Finals, Landed, Bare, Midway, Sendable, UploadsOf, DoneWith, Broken, AllYes;
      DoneParts(sent, batch, accepts, takes, docs);
      if docs == [] {
        assert Flat(sent) + [] == Flat(sent);
        return true;
      }
      if !accepts(|sent|) {
        FinalsLand(Flat(sent), Flat(sent) + docs);
        TurnedAway(sent, stored, puts, accepts, takes, Flat(sent) + docs);
        return false;
      }
      MidwayStarts(stored, docs);
      ghost var before := stored;
      stored := stored + Bare(docs);
      ok := UploadAll(docs, before);
      if ok {
        FlatSnoc(sent, docs);
        FinalsAppend(Flat(sent), docs);
        DoneMore(sent, batch, accepts, takes, docs);
        sent := sent + [docs];
      } else {
        Halfway(sent, stored, puts, accepts, takes, Flat(sent) + docs);
      }
    }

    /** The uploads of documents just written, in order, until one fails. */
    method UploadAll(docs: seq<Outgoing>, ghost before: seq<Stored>) returns (ok: bool)
      requires Sendable(docs) && Sendable(Flat(sent)) && before == Finals(Flat(sent)) && Midway(stored, before, docs, 0, 0)
      requires AllYes(takes, puts)
      modifies this
      ensures sent == old(sent) && AllYes(takes, puts)
      ensures ok ==> stored == before + Finals(docs) && puts == old(puts) + UploadsOf(docs)
      ensures !ok ==> !takes(puts) && old(puts) <= puts < old(puts) + UploadsOf(docs) && Landed(stored, Flat(sent) + docs)
    {
      hide Midway, Finals, Landed, Overlaid, Sendable;
      assert docs[..0] == [];
      for i := 0 to |docs|
        invariant sent == old(sent) && Midway(stored, before, docs, i, 0)
        invariant puts == old(puts) + UploadsOf(docs[..i]) && AllYes(takes, puts)
      {
        SendableAt(docs, i);
        UploadsSnoc(docs, i);
        for k := 0 to |docs[i].uploads|
          invariant sent == old(sent) && Midway(stored, before, docs, i, k)
          invariant puts == old(puts) + UploadsOf(docs[..i]) + k && AllYes(takes, puts)
        {
          if !takes(puts) {
            MidwayLands(stored, Flat(sent), docs, i, k);
            return false;
          }
          MidwayUpload(stored, before, docs, i, k);
          var n, u := |stored| - |docs| + i, docs[i].uploads[k];
          MidwaySize(stored, before, docs, i, k);
          var was := stored[n];
          stored, puts := stored[n := Stored(was.body, was.atts[u.line.name := EntryOf(u)], was.bumps + 1)], puts + 1;
        }
        MidwayNext(stored, before, docs, i);
      }
      MidwayEnds(stored, before, docs);
      assert docs[..|docs|] == docs;
      return true;
    }
  }

  /** The restore loop's state.  Every document waiting to be written is an Outgoing, the
      last one being added to as its attachments arrive; `current` says there is one. */
  class Batcher {
    const j: Json
    const batch: nat
    const db: Database
    var pending: seq<Outgoing>
    var pendingBytes: nat
    var inlineBytes: nat
    var current: bool

    constructor (j: Json, batch: nat, db: Database)
      requires batch > 0 && db.Written(batch) && db.sent == []
      ensures Valid() && Settled() == [] && this.j == j && this.batch == batch && this.db == db
    {
      this.j, this.batch, this.db := j, batch, db;
      pending, pendingBytes, inlineBytes, current := [], 0, 0, false;
    }

    ghost predicate Valid()
      reads this, db
    {
      && |pending| <= batch && db.Written(batch) && Sendable(pending)
      && Balanced(pending, pendingBytes, inlineBytes)
      && (current <==> pending != [])
    }

    /** Everything written or pending, in order. */
    ghost function Settled(): seq<Outgoing>
      reads this, db
    {
      Flat(db.sent) + pending
    }

    method Flush() returns (ok: bool)
      requires Valid()
      modifies this, db
      ensures ok ==> Valid() && pending == [] && Settled() == old(Settled()) == Flat(db.sent)
      ensures !ok ==> db.Failed(batch, old(db.sent), old(Settled()))
    {
      FitsPending(pending, pendingBytes, inlineBytes);
      hide Balanced, Fits, Flat, Sendable, Database.Written, Database.Failed;
      current := false;
      ok := db.WriteBatch(pending, batch);
      if !ok {
        return;
      }
      pending, pendingBytes, inlineBytes := [], 0, 0;
      NothingPending(Flat(db.sent));
    }

    /** flushBefore: every document ahead of the one being read goes out; that one stays. */
    method FlushBefore() returns (ok: bool)
      requires Valid() && pending != []
      modifies this, db
      ensures ok ==> Valid() && Settled() == old(Settled())
      ensures ok ==> pending == [old(pending)[|old(pending)| - 1]] && inlineBytes == pending[0].inlineBytes
      ensures !ok ==> old(|pending|) > 1 && db.Failed(batch, old(db.sent), AllButLast(old(Settled())))
    {
      var n := |pending| - 1;
      var last := pending[n];
      InitAndLast(pending);
      SumPart(pending[..n], last);
      FitsWithout(pending[..n], last);
      SendableParts(pending[..n], [last]);
      hide Balanced, Fits, Flat, Sendable, Database.Written, Database.Failed;
      if |pending| < 2 {
        return true;
      }
      Associate(Flat(db.sent), pending[..n], [last]);
      assert AllButLast(Flat(db.sent) + pending) == Flat(db.sent) + pending[..n];
      ok := db.WriteBatch(pending[..n], batch);
      if !ok {
        return;
      }
      pending, inlineBytes, pendingBytes := [last], last.inlineBytes, last.bytes;
    }

    /** A doc record.  The batch is closed here, at a document boundary, when it is full or
        holds enough bytes; then one more document becomes the current one. */
    method Begin(body: Bytes) returns (ok: bool)
      requires Valid() && batch > 0
      modifies this, db
      ensures ok ==> Valid() && pending != [] && Settled() == old(Settled()) + [Plain(body)]
      ensures ok ==> Waits(old(|pending|) < batch && old(pendingBytes) < 16 * 1024 * 1024, old(db.sent), db.sent, old(|pending|) + 1, |pending|)
      ensures !ok ==> !(old(|pending|) < batch && old(pendingBytes) < 16 * 1024 * 1024) && db.Failed(batch, old(db.sent), old(Settled()))
    {
      hide Balanced, Sendable, Flat, Database.Written, Database.Failed;
      if !Roomy() {
        ok := Flush();
        if !ok {
          return;
        }
      }
      RoomFor(pending, pendingBytes, inlineBytes, body);
      Associate(Flat(db.sent), pending, [Plain(body)]);
      pending, current := pending + [Plain(body)], true;
      pendingBytes := pendingBytes + |body|;
      return true;
    }

    /** The batch takes one document more. */
    predicate Roomy()
      reads this
    {
      |pending| < batch && pendingBytes < BATCH_BYTES
    }

    /** The current document is there, and it is the one the att line names. */
    predicate Welcomes(a: Line)
      requires a.Att?
      reads this
    {
      && pending != []
      && var body := pending[|pending| - 1].body;
         j.idOf(body) == a.id && j.revOf(body) == a.rev && !j.isTombstone(body)
    }

    /** An att record, its payload read from r: inline when the request has room - after
        sending the documents ahead if need be - and spilled otherwise.  What becomes of it
        depends on its own document alone. */
    method Take(r: Reader, a: Line) returns (problem: Option<Problem>)
      requires Valid() && a.Att? && r.Valid() && Bounded(Record(a, r.content))
      modifies this, db, r
      ensures problem != Some(Unwritten) ==> Valid() && (problem.None? <==> old(Welcomes(a)) && a.length == |old(r.content)|)
      ensures problem == Some(Misplaced) <==> old(pending) == [] || !Named(old(pending)[old(|pending|) - 1].body, a)
      ensures problem == Some(AfterDeletion) ==> old(pending) != [] && j.isTombstone(old(pending)[old(|pending|) - 1].body)
      ensures problem == Some(NegativeLength) ==> a.length < 0
      ensures problem == Some(ShortPayload) ==> a.length > |old(r.content)|
      ensures problem.None? ==>
                && pending != [] && r.Valid() && r.ahead == old(r.ahead)
                && Settled() == WithLast(old(Settled()), Record(a, old(r.content)))
                && Waits(a.length > INLINE_LIMIT || old(inlineBytes) + EncodedLen(a.length) <= BATCH_BYTES,
                         old(db.sent), db.sent, old(|pending|), |pending|)
      ensures problem.Some? && problem != Some(Unwritten) ==> Settled() == old(Settled()) && (pending == [] <==> old(pending) == [])
      ensures problem == Some(Unwritten) ==>
                && db.Failed(batch, old(db.sent), AllButLast(old(Settled()))) && old(Welcomes(a))
                && 0 <= a.length <= INLINE_LIMIT && old(inlineBytes) + EncodedLen(a.length) > BATCH_BYTES && old(|pending|) > 1
    {
      hide Balanced, Sendable, Attach, Flat, Database.Written, Database.Failed;
      if !current || !Named(pending[|pending| - 1].body, a) {
        return Some(Misplaced);
      }
      if j.isTombstone(pending[|pending| - 1].body) {
        return Some(AfterDeletion);
      }
      if a.length < 0 {
        return Some(NegativeLength);
      }
      var encoded := EncodedLen(a.length);
      if a.length <= INLINE_LIMIT && inlineBytes + encoded > BATCH_BYTES {
        var ok := FlushBefore();
        if !ok {
          return Some(Unwritten);
        }
      }
      var inline := a.length <= INLINE_LIMIT && inlineBytes + encoded <= BATCH_BYTES;
      var data := r.Read(a.length);
      if |data| != a.length {
        return Some(ShortPayload);
      }
      assert data == old(r.content);
      Add(inline, Record(a, data));
      return None;
    }

    predicate Named(body: Bytes, a: Line)
      requires a.Att?
    {
      j.idOf(body) == a.id && j.revOf(body) == a.rev
    }

    /** Adds an attachment to the current document and to the totals. */
    method Add(inline: bool, rec: Record)
      requires Valid() && pending != [] && rec.line.Att? && rec.line.length == |rec.payload|
      requires inline <==> rec.line.length <= INLINE_LIMIT && inlineBytes + EncodedLen(rec.line.length) <= BATCH_BYTES
      requires rec.line.length <= INLINE_LIMIT && !inline ==> inlineBytes == pending[|pending| - 1].inlineBytes
      modifies this`pending, this`pendingBytes, this`inlineBytes
      ensures Valid() && pending != [] && Settled() == WithLast(old(Settled()), rec) && |pending| == old(|pending|)
    {
      hide EncodedLen, SumBytes, SumInline, Flat, Database.Written, Sendable;
      var n, p := rec.line.length, pending[|pending| - 1];
      ghost var front, v := pending[..|pending| - 1], p;
      assert pending == front + [v];
      LastOfSum(pending);
      AttachSendable(front, v, rec);
      AttachTotals(front, v, rec, pendingBytes, inlineBytes);
      WithLastPart(Flat(db.sent), pending, rec);
      if inline {
        p := p.(inlined := p.inlined[rec.line.name := Entry(rec.line.contentType, rec.payload)],
                inlineBytes := p.inlineBytes + EncodedLen(n), bytes := p.bytes + EncodedLen(n));
      } else {
        p := p.(uploads := p.uploads + [rec], bytes := p.bytes + n);
      }
      assert p == Attach(v, rec) && (inline <==> FitsInline(v, n));
      hide Attach, Balanced, WithLast, FitsInline;
      pending := pending[..|pending| - 1] + [p];
      if inline {
        inlineBytes, pendingBytes := inlineBytes + EncodedLen(n), pendingBytes + EncodedLen(n);
      } else {
        pendingBytes := pendingBytes + n;
      }
    }
  }

  lemma RoomFor(vs: seq<Outgoing>, pendingBytes: nat, inlineBytes: nat, body: Bytes)
    requires Balanced(vs, pendingBytes, inlineBytes) && Sendable(vs) && (pendingBytes < BATCH_BYTES || vs == [])
    ensures Balanced(vs + [Plain(body)], pendingBytes + |body|, inlineBytes) && Sendable(vs + [Plain(body)])
  {
    BalancedSnoc(vs, Plain(body));
    SendableParts(vs, [Plain(body)]);
  }

  lemma AttachSendable(front: seq<Outgoing>, v: Outgoing, rec: Record)
    requires Sendable(front + [v]) && rec.line.Att? && rec.line.length == |rec.payload|
    ensures Sendable(front + [Attach(v, rec)])
  {
    SendableParts(front, [v]);
    SendableParts(front, [Attach(v, rec)]);
    assert v in [v];
    hide EncodedLen;
  }

  lemma SumPart(front: seq<Outgoing>, last: Outgoing)
    requires SumInline(front + [last]) <= BATCH_BYTES
    ensures Balanced([last], last.bytes, last.inlineBytes)
  {
    assert (front + [last])[..|front|] == front && [last][..0] == [];
  }

  lemma FitsWithout(front: seq<Outgoing>, last: Outgoing)
    requires Fits(front + [last])
    ensures Fits(front)
  {
    assert (front + [last])[..|front|] == front;
  }

  lemma WithLastPart(a: seq<Outgoing>, b: seq<Outgoing>, rec: Record)
    requires b != [] && rec.line.Att? && 0 <= rec.line.length
    ensures WithLast(a + b, rec) == a + (b[..|b| - 1] + [Attach(b[|b| - 1], rec)])
  {
    assert (a + b)[..|a + b| - 1] == a + b[..|b| - 1];
  }

  lemma LastOfSum(vs: seq<Outgoing>)
    requires vs != []
    ensures vs[|vs| - 1].inlineBytes <= SumInline(vs)
  {
  }

  /** Attaching to the last document changes the totals by what it adds to that document. */
  lemma AttachTotals(front: seq<Outgoing>, v: Outgoing, rec: Record, total: nat, inline: nat)
    requires Balanced(front + [v], total, inline)
    requires rec.line.Att? && 0 <= rec.line.length
    requires FitsInline(v, rec.line.length) ==> inline + EncodedLen(rec.line.length) <= BATCH_BYTES
    ensures var n := rec.line.length;
            if FitsInline(v, n)
            then Balanced(front + [Attach(v, rec)], total + EncodedLen(n), inline + EncodedLen(n))
            else Balanced(front + [Attach(v, rec)], total + n, inline)
  {
    assert (front + [v])[..|front|] == front == (front + [Attach(v, rec)])[..|front|];
  }

  // ---------------------------------------------------------------- the command

  datatype Refusal =
    | ForeignFile | NewerFormat
    | NoFooter                       // incomplete, and --partial was not passed
    | Unreadable                     // nothing to read at all
    | BadRecord(end: End)
    | NoHeader
    | BadAttachment(problem: Problem)
    | TargetUnfit(why: Unfit)        // the target database, before anything is written
    | WriteFailed
    | DocsDiffer | AttachmentsDiffer | DeletionsDiffer // the footer's counts

  function LastFooter(rs: seq<Record>): (f: Option<Line>)
    ensures f.Some? ==> f.value.Footer?
  {
    if rs == [] then None
    else if rs[|rs| - 1].line.Footer? then Some(rs[|rs| - 1].line)
    else LastFooter(rs[..|rs| - 1])
  }

  predicate FooterAgrees(j: Json, rs: seq<Record>) {
    LastFooter(rs).Some? ==>
      var f := LastFooter(rs).value;
      f.docs == Count(j, rs).docs && f.attachments == Count(j, rs).atts && f.deleted == Count(j, rs).deleted
  }

  /** How far a dump is read: all of it when complete, else to the last intact member. */
  function Source(f: Bytes, res: Resume): Bytes {
    if res.complete || res.offset > |f| then f else f[..res.offset]
  }

  /** The files restore loads without complaint. */
  predicate Loads(g: Gzip, j: Json, f: Bytes, partial: bool)
    requires forall f' :: g.Sized(f')
  {
    var a := ScanAnswer(g, j, f);
    && a.Found? && (a.res.complete || partial)
    && g.open(Source(f, a.res)).Member?
    && var read := ReadAll(g, j, Source(f, a.res));
       Fine(j, read)
       && (partial || FooterAgrees(j, read.recs))
  }

  predicate LastFooterAt(rs: seq<Record>, i: nat) {
    i < |rs| && rs[i].line.Footer? && forall k :: i < k < |rs| ==> !rs[k].line.Footer?
  }

  lemma {:induction false} LastFooterIs(rs: seq<Record>)
    ensures forall i: nat :: LastFooterAt(rs, i) ==> LastFooter(rs) == Some(rs[i].line)
    ensures LastFooter(rs).Some? ==> exists i: nat :: LastFooterAt(rs, i)
  {
    if rs != [] {
      var n := |rs| - 1;
      LastFooterIs(rs[..n]);
      if rs[n].line.Footer? {
        assert LastFooterAt(rs, n);
      } else {
        assert forall i: nat :: LastFooterAt(rs, i) ==> LastFooterAt(rs[..n], i);
        if LastFooter(rs).Some? {
          var i: nat :| LastFooterAt(rs[..n], i);
          assert LastFooterAt(rs, i);
        }
      }
    }
  }

  /** The footer's three numbers are those of the records in the file. */
  predicate TrueFooter(j: Json, rs: seq<Record>, f: Line)
    requires f.Footer?
  {
    f.docs == |Select(j, rs, Docs)| && f.deleted == |Select(j, rs, Deletions)| && f.attachments == |Select(j, rs, Atts)|
  }

  lemma FooterAgreesIff(j: Json, rs: seq<Record>)
    ensures FooterAgrees(j, rs) <==> forall i: nat :: LastFooterAt(rs, i) ==> TrueFooter(j, rs, rs[i].line)
  {
    LastFooterIs(rs);
    CountersMean(j, rs);
    hide LastFooter, Count, Select;
    if i: nat :| LastFooterAt(rs, i) {
      assert LastFooter(rs) == Some(rs[i].line);
    }
  }

  /** Exactly which files restore loads: those Scan finds a dump in, complete unless --partial
      is given, which read - as far as they are whole - to a clean end, begin with a header,
      hold every attachment behind the document it belongs to, and, unless --partial is given,
      bear a last footer that tells what is in them. */
  lemma LoadsIff(g: Gzip, j: Json, f: Bytes, partial: bool)
    requires forall f' :: g.Sized(f')
    ensures Loads(g, j, f, partial) <==>
            && ScanAnswer(g, j, f).Found?
            && var res := ScanAnswer(g, j, f).res;
               && (res.complete || partial)
               && res.offset <= |f|
               && var part := if res.complete then f else f[..res.offset];
                  && g.open(part).Member?
                  && ReadAll(g, j, part).end == Clean
                  && var rs := ReadAll(g, j, part).recs;
                     && (rs != [] ==> rs[0].line.Header?)
                     && (forall i: nat :: i < |rs| && rs[i].line.Att? ==> exists d: nat :: Belongs(j, rs, d, i))
                     && (partial || forall i: nat :: LastFooterAt(rs, i) ==> TrueFooter(j, rs, rs[i].line))
  {
    var a := ScanAnswer(g, j, f);
    if a.Found? {
      assert a.res.offset <= |f|;
      var rs := ReadAll(g, j, Source(f, a.res)).recs;
      OrderedIff(j, rs);
      FooterAgreesIff(j, rs);
    }
    hide ScanAnswer, ReadAll, Ordered, FooterAgrees, LastFooterAt, TrueFooter;
  }

  /** What the database holds of these records is finished: documents none of which is the
      one being read, each with what it carries inside and the first of its uploads. */
  ghost predicate Finished(j: Json, stored: seq<Stored>, rs: seq<Record>) {
    Ordered(j, rs) && Landed(stored, AllButLast(Documents(j, rs)))
  }

  /** What a restore leaves in the database, however it ends: finished documents of the part
      it has read, or documents of the whole. */
  ghost predicate Left(j: Json, stored: seq<Stored>, read: Decoded) {
    || (exists k :: 0 <= k <= |read.recs| && Finished(j, stored, read.recs[..k]))
    || (Fine(j, read) && Landed(stored, Documents(j, read.recs)))
  }

  /** The header in force when the target is prepared, at the first document. */
  function HeaderBefore(rs: seq<Record>): Option<Line> {
    if rs == [] then None else
      var front, last := rs[..|rs| - 1], rs[|rs| - 1].line;
      if LastDoc(front).None? && last.Header? then Some(last) else HeaderBefore(front)
  }

  /** The loop's invariant: the documents of rs, in order, are written or pending. */
  ghost predicate Holding(b: Batcher, rs: seq<Record>)
    reads b, b.db
  {
    && b.Valid() && b.batch > 0 && Ordered(b.j, rs)
    && b.Settled() == Documents(b.j, rs)
    && (b.pending == [] <==> Documents(b.j, rs) == [])
  }

  /** One record, r standing behind its line. */
  method Step(b: Batcher, r: Reader, t: Tally, ghost rs: seq<Record>, ghost i: nat, line: Line)
    returns (problem: Option<Problem>, t': Tally)
    requires i < |rs| && Holding(b, rs[..i]) && line == rs[i].line
    requires r.Valid() && r.content == rs[i].payload && Bounded(rs[i])
    requires t == Count(b.j, rs[..i])
    modifies b, b.db, r
    ensures problem == Some(Unwritten) ==>
              && (line.Doc? || LastDoc(rs[..i]).Some?) && b.db.Sent(b.batch) && b.db.Failing()
              && (Finished(b.j, b.db.stored, rs[..i]) || Finished(b.j, b.db.stored, rs[..i + 1]))
    ensures problem != Some(Unwritten) ==> (problem.None? <==> Ordered(b.j, rs[..i + 1]))
    ensures problem.None? ==> Holding(b, rs[..i + 1]) && r.Valid() && r.ahead == old(r.ahead) && t' == Count(b.j, rs[..i + 1])
    ensures problem.Some? && problem != Some(Unwritten) ==> Holding(b, rs[..i])
  {
    hide Decode, AfterPayload, CountFrom, Documents, Flat, WithLast, LastFooter, EncodedLen, Balanced, Attach, FitsInline, Waits, Ordered, Fits, Batched, Batcher.Roomy, Database.Written, Database.Sent, Database.Failing, Landed, Sendable, Finals, HeaderBefore, LastDoc;
    LoadStep(b.j, rs, i);
    problem, t' := None, t;
    match line {
      case Header(_, _, _, _, _, _) =>
      case Checkpoint(s) =>
        t' := t.(seqno := s);
      case Footer(_, _, _, _) =>
        t' := t.(complete := true);
      case Doc(body) =>
        var ok := b.Begin(body);
        if !ok {
          assert AllButLast(Documents(b.j, rs[..i + 1])) == Documents(b.j, rs[..i]);
          return Some(Unwritten), t;
        }
        t' := t.(docs := t.docs + 1, bytes := t.bytes + |body|, deleted := t.deleted + if b.j.isTombstone(body) then 1 else 0);
      case Att(_, _, _, _, length) =>
        WelcomeIffInPlace(b, rs[..i], rs[i]);
        problem := b.Take(r, line);
        t' := t.(atts := t.atts + 1, bytes := t.bytes + length);
    }
  }

  lemma WelcomeIffInPlace(b: Batcher, rs: seq<Record>, rec: Record)
    requires Holding(b, rs) && rec.line.Att?
    ensures InPlace(b.j, rs, rec) <==> b.Welcomes(rec.line) && rec.line.length == |rec.payload|
  {
  }

  /** The record loop.  It stops at the first record that is out of place, or at the first
      write that fails, having written only documents that were complete by then; and before
      writing anything if the target is unfit. */
  method Load(b: Batcher, data: Bytes, clean: bool, target: Target, create: bool, merge: bool)
    returns (e: Option<Refusal>, t: Tally, footer: Option<Line>, created: Option<bool>)
    requires Holding(b, []) && b.db.stored == []
    modifies b, b.db
    ensures b.db.Sent(b.batch) && (e == Some(WriteFailed) ==> b.db.Failing())
    ensures target.There? ==> created == None
    ensures e.Some? && e.value.TargetUnfit? ==> e.value.why == if target.Missing? then NoDatabase else NotEmpty
    ensures Unready(target, create, merge) ==> b.db.stored == [] && e.Some? && e != Some(WriteFailed)
    ensures var read := Decode(b.j, data, clean);
            && (e != Some(WriteFailed) ==> (e.None? <==> Fine(b.j, read) && !Unready(target, create, merge)))
            && (e.None? ==> b.db.Written(b.batch) && Flat(b.db.sent) == Documents(b.j, read.recs) && t == Count(b.j, read.recs) && footer == LastFooter(read.recs))
            && (e.None? ==> created == if target.Missing? then Some(SaysPartitioned(read.recs)) else None)
            && (e.Some? ==> FromLoop(e.value) && Tells(b.j, read, e.value))
            && Left(b.j, b.db.stored, read)
  {
    hide Decode, AfterPayload, CountFrom, Documents, Flat, WithLast, LastFooter, EncodedLen, Balanced, Attach, FitsInline, Finished, Holding, Batched, Ordered, InPlace, Landed, Database.Sent, Database.Written, Database.Failing, HeaderBefore, LastDoc, Tells;
    ghost var all := Decode(b.j, data, clean);
    TellsNothing(b.j, all);
    DecodeBounded(b.j, data, clean);
    var r := new Reader(b.j, data, clean);
    var first, prepared := true, false;
    var header := None;
    t, footer, created := NOTHING, None, None;
    ghost var i := 0;
    StartLoad(b.j, all.recs);
    while true
      invariant i <= |all.recs| && r.Valid() && r.ahead == Decoded(all.recs[i..], all.end)
      invariant first <==> i == 0
      invariant i > 0 ==> all.recs[0].line.Header?
      invariant Holding(b, all.recs[..i])
      invariant t == Count(b.j, all.recs[..i]) && footer == LastFooter(all.recs[..i])
      invariant prepared <==> LastDoc(all.recs[..i]).Some?
      invariant if prepared then Prepared(target, HeaderBefore(all.recs[..i]), create, merge) == Ok(created) else header == HeaderBefore(all.recs[..i])
      invariant !prepared ==> created == None
      decreases |all.recs| - i
    {
      Resting(b, all.recs[..i], target, create, merge);
      var next := r.Next();
      if next.Stop? {
        assert i == |all.recs| && all.recs[..i] == all.recs;
        if next.end == Clean {
          break;
        }
        TellsRecord(b.j, all);
        return Some(BadRecord(next.end)), t, footer, created;
      }
      if first {
        if !next.line.Header? {
          TellsNoHeader(b.j, all);
          return Some(NoHeader), t, footer, created;
        }
        first := false;
      }
      LoadStep(b.j, all.recs, i);
      if next.line.Header? {
        header := Some(next.line);
      }
      if next.line.Doc? && !prepared {
        var answer := Prepared(target, header, create, merge);
        if answer.Err? {
          return Some(TargetUnfit(answer.error)), t, footer, created;
        }
        created, prepared := answer.value, true;
      }
      assert all.recs[i..][1..] == all.recs[i + 1..];
      var problem;
      assert all.recs[i] in all.recs;
      problem, t := Step(b, r, t, all.recs, i, next.line);
      if problem == Some(Unwritten) {
        return Some(WriteFailed), t, footer, created;
      }
      if problem.Some? {
        Resting(b, all.recs[..i], target, create, merge);
        TellsAttachment(b.j, all, i, problem.value);
        return Some(BadAttachment(problem.value)), t, footer, created;
      }
      if next.line.Footer? {
        footer := Some(next.line);
      }
      i := i + 1;
    }
    if !prepared {
      var answer := Prepared(target, header, create, merge);
      if answer.Err? {
        return Some(TargetUnfit(answer.error)), t, footer, created;
      }
      created := answer.value;
    }
    var ok := CloseLast(b, all.recs);
    return if ok then None else Some(WriteFailed), t, footer, created;
  }

  predicate SaysPartitioned(rs: seq<Record>) {
    var h := HeaderBefore(rs);
    h.Some? && h.value.Header? && h.value.partitioned
  }

  /** What a refusal says of the records. */
  ghost predicate Tells(j: Json, read: Decoded, e: Refusal) {
    match e
    case BadRecord(end) => end == read.end != Clean
    case NoHeader => read.recs != [] && !read.recs[0].line.Header?
    case BadAttachment(_) => exists i :: 0 <= i < |read.recs| && Ordered(j, read.recs[..i]) && !Ordered(j, read.recs[..i + 1])
    case DocsDiffer => LastFooter(read.recs).Some? && LastFooter(read.recs).value.docs != Count(j, read.recs).docs
    case AttachmentsDiffer => LastFooter(read.recs).Some? && LastFooter(read.recs).value.attachments != Count(j, read.recs).atts
    case DeletionsDiffer => LastFooter(read.recs).Some? && LastFooter(read.recs).value.deleted != Count(j, read.recs).deleted
    case _ => true
  }

  predicate FromLoop(e: Refusal) {
    e.BadRecord? || e.NoHeader? || e.BadAttachment? || e.TargetUnfit? || e.WriteFailed?
  }

  predicate FromFooter(e: Refusal) { e.DocsDiffer? || e.AttachmentsDiffer? || e.DeletionsDiffer? }

  lemma TellsRecord(j: Json, read: Decoded)
    requires read.end != Clean
    ensures Tells(j, read, BadRecord(read.end))
  {
  }

  lemma TellsNoHeader(j: Json, read: Decoded)
    requires read.recs != [] && !read.recs[0].line.Header?
    ensures Tells(j, read, NoHeader)
  {
  }

  lemma TellsAttachment(j: Json, read: Decoded, i: nat, problem: Problem)
    requires i < |read.recs| && Ordered(j, read.recs[..i]) && !Ordered(j, read.recs[..i + 1])
    ensures Tells(j, read, BadAttachment(problem))
  {
  }

  lemma TellsNothing(j: Json, read: Decoded)
    ensures Tells(j, read, WriteFailed) && Tells(j, read, TargetUnfit(NoDatabase)) && Tells(j, read, TargetUnfit(NotEmpty))
  {
  }

  /** The target cannot be prepared, whatever the dump's header says. */
  predicate Unready(target: Target, create: bool, merge: bool) {
    if target.Missing? then !create else target.docs > 0 && !merge
  }

  /** The flush after the last record. */
  method CloseLast(b: Batcher, ghost rs: seq<Record>) returns (ok: bool)
    requires Holding(b, rs)
    modifies b, b.db
    ensures b.db.Sent(b.batch) && Landed(b.db.stored, Documents(b.j, rs))
    ensures if ok then b.db.Written(b.batch) && Flat(b.db.sent) == Documents(b.j, rs) else b.db.Failing()
  {
    hide Landed, Finals;
    ok := b.Flush();
    if ok {
      FinalsLand(Flat(b.db.sent), Flat(b.db.sent));
    }
  }

  predicate Fine(j: Json, read: Decoded) {
    read.end == Clean && (read.recs != [] ==> read.recs[0].line.Header?) && Ordered(j, read.recs)
  }

  lemma StartLoad(j: Json, rs: seq<Record>)
    ensures rs[..0] == [] && Ordered(j, rs[..0]) && Documents(j, rs[..0]) == []
    ensures Count(j, rs[..0]) == NOTHING && LastFooter(rs[..0]) == None && Flat<Outgoing>([]) == []
    ensures HeaderBefore(rs[..0]) == None && LastDoc(rs[..0]) == None
  {
  }

  /** Between two records: what is written is finished, and nothing is before the first
      document. */
  lemma Resting(b: Batcher, rs: seq<Record>, target: Target, create: bool, merge: bool)
    requires Holding(b, rs)
    ensures Ordered(b.j, rs) && Finished(b.j, b.db.stored, rs) && b.db.Sent(b.batch)
    ensures LastDoc(rs).None? ==> b.db.stored == []
    ensures Prepared(target, HeaderBefore(rs), create, merge).Ok? <==> !Unready(target, create, merge)
  {
    hide Landed, Ordered, Batched;
    var ds := Documents(b.j, rs);
    SendableParts(Flat(b.db.sent), b.pending);
    if ds != [] {
      assert ds == Flat(b.db.sent) + b.pending;
      assert AllButLast(ds) == Flat(b.db.sent) + b.pending[..|b.pending| - 1];
      SendableParts(Flat(b.db.sent), b.pending[..|b.pending| - 1]);
    } else {
      assert Flat(b.db.sent) == [];
    }
    FinalsLand(Flat(b.db.sent), AllButLast(ds));
  }

  /** What one more record adds to the documents, the counters and the footer. */
  lemma LoadStep(j: Json, rs: seq<Record>, i: nat)
    requires i < |rs| && Ordered(j, rs[..i])
    ensures Ordered(j, rs[..i + 1]) <==> InPlace(j, rs[..i], rs[i])
    ensures Ordered(j, rs) ==> InPlace(j, rs[..i], rs[i])
    ensures Ordered(j, rs[..i + 1]) ==>
              Documents(j, rs[..i + 1]) == Extend(Documents(j, rs[..i]), rs[i])
    ensures Count(j, rs[..i + 1]) == Bump(j, Count(j, rs[..i]), rs[i])
    ensures LastFooter(rs[..i + 1]) == if rs[i].line.Footer? then Some(rs[i].line) else LastFooter(rs[..i])
    ensures LastDoc(rs[..i + 1]) == if rs[i].line.Doc? then Some(rs[i].line.body) else LastDoc(rs[..i])
    ensures HeaderBefore(rs[..i + 1]) == if LastDoc(rs[..i]).None? && rs[i].line.Header? then Some(rs[i].line) else HeaderBefore(rs[..i])
  {
    var front := rs[..i];
    assert rs[..i + 1] == front + [rs[i]];
    assert (front + [rs[i]])[..i] == front;
    OrderedSnoc(j, front, rs[i]);
    CountSnoc(j, NOTHING, front, rs[i]);
  }

  /** Once written, a document is final: nothing read later changes it or its place. */
  lemma {:induction false} SentStays(j: Json, stored: seq<Stored>, rs: seq<Record>, i: nat, k: nat)
    requires i <= k <= |rs| && Finished(j, stored, rs[..i]) && Ordered(j, rs[..k])
    ensures Finished(j, stored, rs[..k])
    decreases k
  {
    hide Finished, Documents;
    if i < k {
      assert rs[..k][..k - 1] == rs[..k - 1];
      OrderedTake(j, rs[..k], k - 1);
      SentStays(j, stored, rs, i, k - 1);
      SentStaysOne(j, stored, rs, k - 1);
    }
  }

  lemma SentStaysOne(j: Json, stored: seq<Stored>, rs: seq<Record>, i: nat)
    requires i < |rs| && Finished(j, stored, rs[..i]) && Ordered(j, rs[..i + 1])
    ensures Finished(j, stored, rs[..i + 1])
  {
    LoadStep(j, rs, i);
    DocumentsSendable(j, rs[..i + 1]);
    hide Documents, Ordered, Attach, EncodedLen, InPlace, Landed;
    var ds, more := Documents(j, rs[..i]), Documents(j, rs[..i + 1]);
    LandedMore(stored, AllButLast(ds), AllButLast(more));
  }

  lemma DocumentsSendable(j: Json, rs: seq<Record>)
    requires Ordered(j, rs)
    ensures Sendable(Documents(j, rs)) && Sendable(AllButLast(Documents(j, rs)))
  {
    DocumentsAreGroups(j, rs);
    hide Documents, Ordered, AttachAll;
    var ds := Documents(j, rs);
    forall p | p in ds
      ensures Attachments(p.uploads)
    {
      var i :| 0 <= i < |ds| && ds[i] == p;
      assert IsGroup(ds[i], Groups(rs)[i]);
      HeldNames(Groups(rs)[i].doc.line.body, Groups(rs)[i].atts);
    }
  }

  lemma OrderedTake(j: Json, rs: seq<Record>, k: nat)
    requires Ordered(j, rs) && k <= |rs|
    ensures Ordered(j, rs[..k])
  {
    var front := rs[..k];
    forall i | 0 <= i < |front|
      ensures InPlace(j, front[..i], front[i])
    {
      assert front[..i] == rs[..i];
    }
  }

  function BatchSize(flag: int): (n: nat)
    ensures n > 0 && (flag <= 0 ==> n == 200) && (flag > 0 ==> n == flag)
  {
    if flag <= 0 then RESTORE_BATCH_SIZE else flag
  }

  /** restore <file> <db>: scan first, then read no further than the last intact member of
      an incomplete dump; a complete one must match its footer unless --partial was given.
      `accepts` says of each bulk write in turn whether the server takes it, `takes` of each
      upload. */
  method Run(g: Gzip, j: Json, f: Bytes, partial: bool, batchFlag: int, target: Target, create: bool, merge: bool,
             accepts: nat -> bool, takes: nat -> bool)
    returns (e: Option<Refusal>, sent: seq<seq<Outgoing>>, stored: seq<Stored>, created: Option<bool>)
    requires forall f' :: g.Sized(f')
    ensures DoneWith(sent, BatchSize(batchFlag), accepts, takes)
    ensures e == Some(WriteFailed) ==> !accepts(|sent|) || exists n :: n >= UploadsOf(Flat(sent)) && !takes(n)
    ensures e != Some(WriteFailed) ==> (e.None? <==> Loads(g, j, f, partial) && !Unready(target, create, merge))
    ensures e == Some(ForeignFile) <==> ScanAnswer(g, j, f).NotADump?
    ensures e == Some(NewerFormat) <==> ScanAnswer(g, j, f).Refused?
    ensures e == Some(NoFooter) <==> ScanAnswer(g, j, f).Found? && !ScanAnswer(g, j, f).res.complete && !partial
    ensures e.Some? && (FromLoop(e.value) || FromFooter(e.value)) ==>
              ScanAnswer(g, j, f).Found? && Tells(j, ReadAll(g, j, Source(f, ScanAnswer(g, j, f).res)), e.value)
    ensures Unready(target, create, merge) ==> stored == []
    ensures target.There? ==> created == None
    ensures stored != [] || e.None? ==> ScanAnswer(g, j, f).Found?
    ensures e.None? ==>
              var read := ReadAll(g, j, Source(f, ScanAnswer(g, j, f).res));
              && Flat(sent) == Documents(j, read.recs)
              && Sendable(Flat(sent)) && stored == Finals(Flat(sent))
              && created == if target.Missing? then Some(SaysPartitioned(read.recs)) else None
    ensures stored != [] ==> Left(j, stored, ReadAll(g, j, Source(f, ScanAnswer(g, j, f).res)))
  {
    hide Decode, AfterPayload, CountFrom, Documents, Flat, LastFooter, IntactPart, Inflate, Left, SaysPartitioned, Tells, Unready, Batched, Finals, Sendable, UploadsOf, Ordered, DoneWith, FooterAgrees, LastFooter, Fine, Source, Count;
    sent, stored, created := [], [], None;
    NoneSent(batchFlag, accepts, takes);
    var scanned := Scan(g, j, f);
    match scanned {
      case Refused(_) => return Some(NewerFormat), sent, stored, created;
      case NotADump => return Some(ForeignFile), sent, stored, created;
      case Found(_) =>
    }
    var res := scanned.res;
    if !res.complete && !partial {
      return Some(NoFooter), sent, stored, created;
    }
    var src := Source(f, res);
    if !g.open(src).Member? {
      return Some(Unreadable), sent, stored, created;
    }
    var db := new Database(accepts, takes);
    NothingWritten(db, BatchSize(batchFlag));
    var b := new Batcher(j, BatchSize(batchFlag), db);
    assert Holding(b, []) by { StartLoad(j, []); }
    var (data, clean) := Inflate(g, src);
    var t, footer;
    e, t, footer, created := Load(b, data, clean, target, create, merge);
    sent, stored := b.db.sent, b.db.stored;
    DoneParts(sent, b.batch, accepts, takes, []);
    if e.Some? {
      return;
    }
    e := Compare(j, ReadAll(g, j, src), footer, t, partial);
  }

  /** The footer's counts against those of what was read, unless --partial was given. */
  method Compare(j: Json, ghost read: Decoded, footer: Option<Line>, t: Tally, partial: bool) returns (e: Option<Refusal>)
    requires footer == LastFooter(read.recs) && t == Count(j, read.recs)
    ensures e.None? <==> partial || FooterAgrees(j, read.recs)
    ensures e.Some? ==> FromFooter(e.value) && Tells(j, read, e.value)
  {
    hide Count, LastFooter;
    if footer.Some? && !partial {
      if footer.value.docs != t.docs {
        return Some(DocsDiffer);
      }
      if footer.value.attachments != t.atts {
        return Some(AttachmentsDiffer);
      }
      if footer.value.deleted != t.deleted {
        return Some(DeletionsDiffer);
      }
    }
    return None;
  }

  lemma NothingWritten(db: Database, batch: nat)
    requires db.sent == [] && db.stored == [] && db.puts == 0
    ensures db.Written(batch)
  {
  }

  lemma NoneSent(batchFlag: int, accepts: nat -> bool, takes: nat -> bool)
    ensures DoneWith([], BatchSize(batchFlag), accepts, takes)
  {
  }
}
