/** What restore leaves in the database (internal/command/restore.go): the documents of its
    bulk writes, with the attachments uploaded to them since. */
module RestoreTarget {
  import opened Wrappers
  import opened DumpFormat
  import opened RestoreRule

  /** A document as the database holds it.  Each upload gives it another revision. */
  datatype Stored = Stored(body: Bytes, atts: map<string, Entry>, bumps: nat)

  /** Document p once it is written and the first k of its uploads have been made. */
  function StoredAfter(p: Outgoing, k: nat): Stored
    requires Attachments(p.uploads) && k <= |p.uploads|
  {
    Stored(p.body, Overlaid(p.inlined, p.uploads[..k]), k)
  }

  predicate Sendable(ds: seq<Outgoing>) {
    forall p :: p in ds ==> Attachments(p.uploads)
  }

  /** The documents ds, written and with all their uploads. */
  function Finals(ds: seq<Outgoing>): (ss: seq<Stored>)
    requires Sendable(ds)
    ensures |ss| == |ds|
    ensures forall i :: 0 <= i < |ds| ==> ss[i] == StoredAfter(ds[i], |ds[i].uploads|)
  {
    seq(|ds|, i requires 0 <= i < |ds| => StoredAfter(ds[i], |ds[i].uploads|))
  }

  /** The documents ds just after their bulk write. */
  function Bare(ds: seq<Outgoing>): (ss: seq<Stored>)
    requires Sendable(ds)
    ensures |ss| == |ds|
    ensures forall i :: 0 <= i < |ds| ==> ss[i] == StoredAfter(ds[i], 0)
  {
    seq(|ds|, i requires 0 <= i < |ds| => StoredAfter(ds[i], 0))
  }

  ghost predicate Part(s: Stored, p: Outgoing)
    requires Attachments(p.uploads)
  {
    exists k :: 0 <= k <= |p.uploads| && s == StoredAfter(p, k)
  }

  /** The database holds documents of ds, in order and from the first on, each with what it
      carries inside and the first so many of its uploads. */
  ghost predicate Landed(stored: seq<Stored>, ds: seq<Outgoing>) {
    && Sendable(ds) && |stored| <= |ds|
    && forall i :: 0 <= i < |stored| ==> Part(stored[i], ds[i])
  }

  /** A finished document ends up with what Held says; it keeps its revision exactly when
      nothing of it had to be uploaded. */
  lemma FinalIsHeld(p: Outgoing)
    requires Attachments(p.uploads)
    ensures var s := StoredAfter(p, |p.uploads|);
            s.body == p.body && s.atts == Held(p) && (s.bumps == 0 <==> p.uploads == [])
  {
    assert p.uploads[..|p.uploads|] == p.uploads;
  }

  lemma FinalsLand(ds: seq<Outgoing>, more: seq<Outgoing>)
    requires Sendable(ds) && Sendable(more) && ds <= more
    ensures Landed(Finals(ds), more)
  {
  }

  lemma LandedMore(stored: seq<Stored>, ds: seq<Outgoing>, more: seq<Outgoing>)
    requires Landed(stored, ds) && ds <= more && Sendable(more)
    ensures Landed(stored, more)
  {
  }

  lemma FinalsAppend(a: seq<Outgoing>, b: seq<Outgoing>)
    requires Sendable(a) && Sendable(b)
    ensures Sendable(a + b) && Finals(a + b) == Finals(a) + Finals(b)
  {
  }

  lemma SendableParts(a: seq<Outgoing>, b: seq<Outgoing>)
    ensures Sendable(a + b) <==> Sendable(a) && Sendable(b)
  {
    assert forall p :: p in a + b <==> p in a || p in b;
  }

  /** A database in the middle of uploads: the first i of these documents have all theirs,
      the next has k, the others none. */
  /** How many uploads documents ask for. */
  function UploadsOf(ds: seq<Outgoing>): nat {
    if ds == [] then 0 else UploadsOf(ds[..|ds| - 1]) + |ds[|ds| - 1].uploads|
  }

  lemma {:induction false} UploadsAppend(a: seq<Outgoing>, b: seq<Outgoing>)
    ensures UploadsOf(a + b) == UploadsOf(a) + UploadsOf(b)
  {
    if b == [] {
      assert a + b == a;
    } else {
      assert (a + b)[..|a + b| - 1] == a + b[..|b| - 1];
      UploadsAppend(a, b[..|b| - 1]);
    }
  }

  lemma UploadsSnoc(ds: seq<Outgoing>, i: nat)
    requires i < |ds|
    ensures UploadsOf(ds[..i + 1]) == UploadsOf(ds[..i]) + |ds[i].uploads| <= UploadsOf(ds)
  {
    assert ds[..i + 1][..i] == ds[..i];
    assert ds == ds[..i + 1] + ds[i + 1..];
    UploadsAppend(ds[..i + 1], ds[i + 1..]);
  }

  ghost predicate Midway(stored: seq<Stored>, before: seq<Stored>, docs: seq<Outgoing>, i: nat, k: nat)
    requires Sendable(docs) && i <= |docs|
  {
    && |stored| == |before| + |docs| && stored[..|before|] == before
    && (forall x :: 0 <= x < i ==> stored[|before| + x] == StoredAfter(docs[x], |docs[x].uploads|))
    && (i < |docs| ==> k <= |docs[i].uploads| && stored[|before| + i] == StoredAfter(docs[i], k))
    && (forall x :: i < x < |docs| ==> stored[|before| + x] == StoredAfter(docs[x], 0))
  }

  lemma MidwayStarts(before: seq<Stored>, docs: seq<Outgoing>)
    requires Sendable(docs)
    ensures Midway(before + Bare(docs), before, docs, 0, 0)
  {
    assert (before + Bare(docs))[..|before|] == before;
  }

  /** One upload more. */
  lemma MidwayUpload(stored: seq<Stored>, before: seq<Stored>, docs: seq<Outgoing>, i: nat, k: nat)
    requires Sendable(docs) && i < |docs| && k < |docs[i].uploads| && Midway(stored, before, docs, i, k)
    ensures docs[i].uploads[k].line.Att? && |before| + i < |stored|
    ensures var n := |before| + i;
            var u, s := docs[i].uploads[k], stored[n];
            Midway(stored[n := Stored(s.body, s.atts[u.line.name := EntryOf(u)], s.bumps + 1)], before, docs, i, k + 1)
  {
    assert docs[i] in docs;
    var us := docs[i].uploads;
    assert us[k] in us && us[..k + 1] == us[..k] + [us[k]];
    assert Attachments(us[..k]);
    OverlaidSnoc(docs[i].inlined, us[..k], us[k]);
    var n := |before| + i;
    var s := stored[n];
    var after := stored[n := Stored(s.body, s.atts[us[k].line.name := EntryOf(us[k])], s.bumps + 1)];
    assert after[..|before|] == before;
  }

  lemma MidwayNext(stored: seq<Stored>, before: seq<Stored>, docs: seq<Outgoing>, i: nat)
    requires Sendable(docs) && i < |docs| && Midway(stored, before, docs, i, |docs[i].uploads|)
    ensures Midway(stored, before, docs, i + 1, 0)
  {
  }

  lemma MidwaySize(stored: seq<Stored>, before: seq<Stored>, docs: seq<Outgoing>, i: nat, k: nat)
    requires Sendable(docs) && i <= |docs| && Midway(stored, before, docs, i, k)
    ensures |stored| == |before| + |docs|
  {
  }

  lemma SendableAt(ds: seq<Outgoing>, i: nat)
    requires Sendable(ds) && i < |ds|
    ensures Attachments(ds[i].uploads)
  {
  }

  lemma MidwayEnds(stored: seq<Stored>, before: seq<Stored>, docs: seq<Outgoing>)
    requires Sendable(docs) && Midway(stored, before, docs, |docs|, 0)
    ensures stored == before + Finals(docs)
  {
    forall x | 0 <= x < |stored|
      ensures stored[x] == (before + Finals(docs))[x]
    {
      if x < |before| {
        assert stored[..|before|][x] == before[x];
      }
    }
  }

  lemma MidwayLands(stored: seq<Stored>, sent: seq<Outgoing>, docs: seq<Outgoing>, i: nat, k: nat)
    requires Sendable(docs) && Sendable(sent) && i < |docs| && Midway(stored, Finals(sent), docs, i, k)
    ensures Landed(stored, sent + docs)
  {
    SendableParts(sent, docs);
    var before, all := Finals(sent), sent + docs;
    forall x | 0 <= x < |stored|
      ensures Part(stored[x], all[x])
    {
      if x < |sent| {
        assert stored[..|before|][x] == before[x];
        assert all[x] == sent[x] && stored[x] == StoredAfter(sent[x], |sent[x].uploads|);
      } else {
        var y := x - |sent|;
        var n := if y < i then |docs[y].uploads| else if y == i then k else 0;
        assert all[x] == docs[y] && stored[|before| + y] == StoredAfter(docs[y], n);
      }
    }
  }

  // ---------------------------------------------------------------- the target database

  /** The database as restore finds it. */
  datatype Target = Missing | There(docs: nat)

  datatype Unfit = NoDatabase | NotEmpty

  /** prepareTarget: what to create, if anything, or why not; `header` is the dump's. */
  function Prepared(t: Target, header: Option<Line>, create: bool, merge: bool): (r: Result<Option<bool>, Unfit>)
    ensures r.Err? <==> if t.Missing? then !create else t.docs > 0 && !merge
    ensures r.Err? ==> r.error == if t.Missing? then NoDatabase else NotEmpty
    ensures r.Ok? && t.There? ==> r.value == None
    ensures r.Ok? && t.Missing? ==> r.value.Some? && (r.value.value <==> header.Some? && header.value.Header? && header.value.partitioned)
  {
    match t
    case Missing => if create then Ok(Some(header.Some? && header.value.Header? && header.value.partitioned)) else Err(NoDatabase)
    case There(n) => if n > 0 && !merge then Err(NotEmpty) else Ok(None)
  }
}
