/** Finding the point at which an interrupted dump can be resumed
    (internal/backup/resume.go).

    gzip is a parameter with the contract of section 2.2 of RFC 1952: members may be
    concatenated, a whole member is recognised in front of anything, and a member cut
    short yields some prefix of its payload - possibly all of it - and then an error. */
module DumpScan {
  import opened Wrappers
  import opened DumpFormat

  /** Opening a gzip reader at the start of some bytes: too few bytes for a header, bytes
      that are no gzip at all, or a member, whether it reads to its end, and its size. */
  datatype Opened = Short | Alien | Member(data: Bytes, whole: bool, size: nat)

  datatype Gzip = Gzip(pack: Bytes -> Bytes, open: Bytes -> Opened) {
    ghost predicate Valid() {
      && open([]) == Short
      && (forall p, rest :: ReadsWhole(p, rest))
      && (forall p, n | 0 <= n < |pack(p)| :: ReadsTorn(p, n))
      && (forall f :: Sized(f))
    }

    ghost predicate ReadsWhole(p: Bytes, rest: Bytes) {
      pack(p) != [] && open(pack(p) + rest) == Member(p, true, |pack(p)|)
    }

    ghost predicate ReadsTorn(p: Bytes, n: nat)
      requires n < |pack(p)|
    {
      var o := open(pack(p)[..n]);
      o.Short? || (o.Member? && !o.whole && o.data <= p)
    }

    ghost predicate Sized(f: Bytes) {
      open(f).Member? && open(f).whole ==> 0 < open(f).size <= |f|
    }
  }

  // ------------------------------------------------------------------ counting

  /** What the records of a dump add up to. */
  datatype Tally = Tally(docs: int, deleted: int, atts: int, bytes: int, seqno: string, complete: bool)

  const NOTHING := Tally(0, 0, 0, 0, "", false)

  function Bump(j: Json, t: Tally, r: Record): Tally {
    match r.line
    case Header(_, _, _, _, _, _) => t
    case Doc(body) => t.(docs := t.docs + 1, bytes := t.bytes + |body|,
                         deleted := t.deleted + if j.isTombstone(body) then 1 else 0)
    case Att(_, _, _, _, length) => t.(atts := t.atts + 1, bytes := t.bytes + length)
    case Checkpoint(s) => t.(seqno := s)
    case Footer(_, _, _, _) => t.(complete := true)
  }

  /** The running counters after reading rs, starting from t. */
  function CountFrom(j: Json, t: Tally, rs: seq<Record>): Tally {
    if rs == [] then t else Bump(j, CountFrom(j, t, rs[..|rs| - 1]), rs[|rs| - 1])
  }

  function Count(j: Json, rs: seq<Record>): Tally {
    CountFrom(j, NOTHING, rs)
  }

  lemma CountSnoc(j: Json, t: Tally, rs: seq<Record>, r: Record)
    ensures CountFrom(j, t, rs + [r]) == Bump(j, CountFrom(j, t, rs), r)
  {
    assert (rs + [r])[..|rs|] == rs;
  }

  lemma {:induction false} CountAppend(j: Json, t: Tally, a: seq<Record>, b: seq<Record>)
    ensures CountFrom(j, t, a + b) == CountFrom(j, CountFrom(j, t, a), b)
  {
    if b == [] {
      assert a + b == a;
    } else {
      assert (a + b)[..|a + b| - 1] == a + b[..|b| - 1];
      CountAppend(j, t, a, b[..|b| - 1]);
    }
  }

  // ------------------------------------------------------------------ what the counters mean

  datatype Sort = Docs | Deletions | Atts

  predicate IsOf(j: Json, r: Record, sort: Sort) {
    match sort
    case Docs => r.line.Doc?
    case Deletions => r.line.Doc? && j.isTombstone(r.line.body)
    case Atts => r.line.Att?
  }

  /** The records of one sort. */
  function Select(j: Json, rs: seq<Record>, sort: Sort): seq<Record> {
    if rs == [] then []
    else Select(j, rs[..|rs| - 1], sort) + if IsOf(j, rs[|rs| - 1], sort) then [rs[|rs| - 1]] else []
  }

  /** The bytes of the documents and the declared lengths of the attachments. */
  function Volume(rs: seq<Record>): int {
    if rs == [] then 0
    else
      var r := rs[|rs| - 1];
      Volume(rs[..|rs| - 1]) + if r.line.Doc? then |r.line.body| else if r.line.Att? then r.line.length else 0
  }

  /** The counters are the numbers of documents, of deletions among them and of attachments,
      and the bytes of all those; they say complete when a footer has been read. */
  lemma {:induction false} CountersMean(j: Json, rs: seq<Record>)
    ensures var t := Count(j, rs);
            && t.docs == |Select(j, rs, Docs)| && t.deleted == |Select(j, rs, Deletions)|
            && t.atts == |Select(j, rs, Atts)| && t.bytes == Volume(rs)
            && (t.complete <==> exists i :: 0 <= i < |rs| && rs[i].line.Footer?)
  {
    if rs != [] {
      var n := |rs| - 1;
      CountersMean(j, rs[..n]);
      assert forall i :: 0 <= i < n ==> rs[..n][i] == rs[i];
    }
  }

  predicate LastCheckpoint(rs: seq<Record>, i: nat) {
    i < |rs| && rs[i].line.Checkpoint? && forall k :: i < k < |rs| ==> !rs[k].line.Checkpoint?
  }

  /** Seq is the last checkpoint's, and empty if there is none. */
  lemma {:induction false} SeqMeans(j: Json, rs: seq<Record>) returns (i: nat)
    ensures if i < |rs| then LastCheckpoint(rs, i) && Count(j, rs).seqno == rs[i].line.seqno
            else Count(j, rs).seqno == "" && forall k :: 0 <= k < |rs| ==> !rs[k].line.Checkpoint?
  {
    i := 0;
    if rs != [] {
      var n := |rs| - 1;
      if rs[n].line.Checkpoint? {
        i := n;
      } else {
        i := SeqMeans(j, rs[..n]);
        assert forall k :: 0 <= k < n ==> rs[..n][k] == rs[k];
        i := if i < n then i else n + 1;
      }
    }
  }

  // ------------------------------------------------------------------ the intact part of a file

  /** The records of the longest run of members that read to their end, the bytes they
      occupy, and what the member after them yields. */
  datatype Intact = Intact(recs: seq<Record>, offset: nat, tail: Decoded) {
    function Behind(rs: seq<Record>, size: nat): Intact { Intact(rs + recs, size + offset, tail) }
  }

  function IntactPart(g: Gzip, j: Json, f: Bytes): (i: Intact)
    requires forall f' :: g.Sized(f')
    ensures i.offset <= |f|
    decreases |f|
  {
    assert g.Sized(f);
    match g.open(f)
    case Member(data, whole, size) =>
      var d := Decode(j, data, whole);
      if whole && d.end == Clean then IntactPart(g, j, f[size..]).Behind(d.recs, size) else Intact([], 0, d)
    case _ => Intact([], 0, Decoded([], Torn))
  }

  /** What a resumed backup continues from. */
  datatype Resume = Resume(
    seqno: string, offset: nat,
    docs: int, deleted: int, attachments: int, bytes: int,
    tombstones: bool, complete: bool)

  datatype Scanned = Found(res: Resume) | NotADump | Refused(version: string)

  function Summary(t: Tally, offset: nat, tombstones: bool): Resume {
    Resume(t.seqno, offset, t.docs, t.deleted, t.atts, t.bytes, tombstones, t.complete)
  }

  lemma Flagged(t: Tally, offset: nat, was: bool, now: bool)
    ensures Summary(t, offset, was).(tombstones := now) == Summary(t, offset, now)
    ensures Summary(t, offset, was).tombstones == was
  {
  }

  const FRESH_START := Summary(NOTHING, 0, false)

  /** What Scan must answer: every field describes the same boundary, the end of the
      intact part, and only the header's flag may come from beyond it. */
  function ScanAnswer(g: Gzip, j: Json, f: Bytes): Scanned
    requires forall f' :: g.Sized(f')
  {
    match g.open(f)
    case Short => Found(FRESH_START)
    case Alien => NotADump
    case Member(data, whole, _) =>
      var first := Decode(j, data, whole);
      var part := IntactPart(g, j, f);
      if first.recs == [] then
        if first.end.Newer? then Refused(first.end.version) else NotADump
      else if !first.recs[0].line.Header? then NotADump
      else if part.tail.end.Newer? then Refused(part.tail.end.version)
      else Found(Summary(Count(j, part.recs), part.offset, first.recs[0].line.tombstones))
  }

  lemma {:induction false} TornNeverClean(j: Json, data: Bytes)
    ensures Decode(j, data, false).end != Clean
    decreases |data|
  {
    var n := LineEnd(data);
    if n < |data| && j.dec(data[..n]).Some? {
      var rest := data[n + 1..];
      var line := j.dec(data[..n]).value;
      if line.Att? {
        var tail := rest[Taken(line.length, |rest|)..];
        if tail != [] {
          TornNeverClean(j, tail[1..]);
        }
      } else {
        TornNeverClean(j, rest);
      }
    }
  }

  lemma CountNext(j: Json, t: Tally, rs: seq<Record>, i: nat)
    requires i < |rs|
    ensures CountFrom(j, t, rs[..i + 1]) == Bump(j, CountFrom(j, t, rs[..i]), rs[i])
  {
    CountSnoc(j, t, rs[..i], rs[i]);
    assert rs[..i + 1] == rs[..i] + [rs[i]];
  }

  /** How one member's walk ended: at its end, at a break, at a file that is no dump, or
      at a header this binary refuses. */
  datatype Walk = Ended | Broke | Wrong | TooNew(version: string)

  function WalkAnswer(d: Decoded, first: bool): Walk {
    if first && d.recs != [] && !d.recs[0].line.Header? then Wrong
    else if d.end.Newer? then TooNew(d.end.version)
    else if first && d.recs == [] then Wrong
    else if d.end == Clean then Ended
    else Broke
  }

  lemma CountsNone(j: Json, t: Tally)
    ensures CountFrom(j, t, []) == t
  {
  }

  /** The inner loop of Scan: reads one member, adding to provisional counters. */
  method ScanMember(j: Json, data: Bytes, whole: bool, opening: bool, t: Tally, flag: bool)
    returns (walk: Walk, t': Tally, tombstones: bool)
    ensures walk == WalkAnswer(Decode(j, data, whole), opening)
    ensures walk == Ended ==> t' == CountFrom(j, t, Decode(j, data, whole).recs)
    ensures walk in {Ended, Broke} ==>
              tombstones == if opening then Decode(j, data, whole).recs[0].line.tombstones else flag
  {
    hide Decode, AfterPayload, CountFrom, SupportedVersion;
    var r := new Reader(j, data, whole);
    CountsNone(j, t);
    var first := opening;
    t', tombstones := t, flag;
    ghost var all := Decode(j, data, whole);
    ghost var i := 0; // how many records r has handed out
    assert all.recs[..0] == [] && all.recs[0..] == all.recs;
    while true
      invariant i <= |all.recs| && r.Valid() && r.ahead == Decoded(all.recs[i..], all.end)
      invariant first <==> opening && i == 0
      invariant opening && i > 0 ==> all.recs[0].line.Header? && tombstones == all.recs[0].line.tombstones
      invariant !opening ==> tombstones == flag
      invariant t' == CountFrom(j, t, all.recs[..i])
      decreases |all.recs| - i
    {
      var next := r.Next();
      if next.Stop? {
        assert i == |all.recs| && all.recs[..i] == all.recs;
        match next.end {
          case Clean => walk := if first then Wrong else Ended;
          case Newer(v) => walk := TooNew(v);
          case _ => walk := if first then Wrong else Broke;
        }
        return;
      }
      ghost var rec := all.recs[i];
      assert all.recs[i..][1..] == all.recs[i + 1..];
      if first {
        if !next.line.Header? {
          return Wrong, t', tombstones;
        }
        first, tombstones := false, next.line.tombstones;
      }
      ghost var t0 := t';
      match next.line {
        case Doc(body) =>
          t' := t'.(docs := t'.docs + 1, bytes := t'.bytes + |body|);
          if j.isTombstone(body) {
            t' := t'.(deleted := t'.deleted + 1);
          }
        case Att(_, _, _, _, length) =>
          t' := t'.(atts := t'.atts + 1, bytes := t'.bytes + length);
          var copied := r.Drain();
          if !copied {
            return Broke, t', tombstones;
          }
        case Checkpoint(s) =>
          t' := t'.(seqno := s);
        case Footer(_, _, _, _) =>
          t' := t'.(complete := true);
        case Header(_, _, _, _, _, _) =>
      }
      assert t' == Bump(j, t0, rec);
      CountNext(j, t, all.recs, i);
      i := i + 1;
    }
  }

  ghost predicate StepsFrom(g: Gzip, j: Json, f: Bytes, n: nat, seen: seq<Record>, o: Opened)
    requires (forall f' :: g.Sized(f')) && n <= |f|
  {
    if !o.Member? then
      IntactPart(g, j, f) == Intact(seen, n, Decoded([], Torn))
    else
      var d := Decode(j, o.data, o.whole);
      if d.end != Clean then
        IntactPart(g, j, f) == Intact(seen, n, d)
      else
        && 0 < o.size <= |f| - n
        && IntactPart(g, j, f) == IntactPart(g, j, f[n + o.size..]).Behind(seen + d.recs, n + o.size)
  }

  /** How the intact part of a file seen from its start unfolds one member at a time. */
  lemma IntactStep(g: Gzip, j: Json, f: Bytes, n: nat, seen: seq<Record>)
    requires (forall f' :: g.Sized(f')) && n <= |f|
    requires IntactPart(g, j, f) == IntactPart(g, j, f[n..]).Behind(seen, n)
    ensures StepsFrom(g, j, f, n, seen, g.open(f[n..]))
  {
    hide Decode, AfterPayload, CountFrom;
    assert g.Sized(f[n..]);
    assert seen + [] == seen;
    match g.open(f[n..])
    case Member(data, whole, size) =>
      var d := Decode(j, data, whole);
      if !whole {
        TornNeverClean(j, data);
      } else if d.end == Clean {
        var left := IntactPart(g, j, f[n + size..]);
        assert f[n..][size..] == f[n + size..];
        assert seen + (d.recs + left.recs) == (seen + d.recs) + left.recs;
      }
    case _ =>
  }

  /** Scan's state at a member boundary: n bytes behind it hold the records seen, and the
      header's flag is known once the first member is behind it. */
  ghost predicate Walking(g: Gzip, j: Json, f: Bytes, n: nat, seen: seq<Record>, flag: bool)
    requires forall f' :: g.Sized(f')
  {
    && n <= |f|
    && g.open(f).Member?
    && IntactPart(g, j, f) == IntactPart(g, j, f[n..]).Behind(seen, n)
    && (n > 0 ==> var first := Decode(j, g.open(f).data, g.open(f).whole).recs;
                  first != [] && first[0].line.Header? && flag == first[0].line.tombstones)
  }

  lemma WalkStarts(g: Gzip, j: Json, f: Bytes)
    requires (forall f' :: g.Sized(f')) && g.open(f).Member?
    ensures Walking(g, j, f, 0, [], false) && f[0..] == f
  {
    assert f[0..] == f;
  }

  /** Past an intact member the walk goes on; at anything else it has its answer. */
  lemma WalkOn(g: Gzip, j: Json, f: Bytes, n: nat, seen: seq<Record>, flag: bool, flag': bool)
    requires forall f' :: g.Sized(f')
    requires Walking(g, j, f, n, seen, flag) && g.open(f[n..]).Member?
    requires var d := Decode(j, g.open(f[n..]).data, g.open(f[n..]).whole);
             WalkAnswer(d, n == 0) in {Ended, Broke} ==> flag' == if n == 0 then d.recs[0].line.tombstones else flag
    ensures var o := g.open(f[n..]);
            var d := Decode(j, o.data, o.whole);
            match WalkAnswer(d, n == 0)
            case Wrong => ScanAnswer(g, j, f) == NotADump
            case TooNew(v) => ScanAnswer(g, j, f) == Refused(v)
            case Broke => ScanAnswer(g, j, f) == Found(Summary(Count(j, seen), n, flag'))
            case Ended => 0 < o.size <= |f| - n && Walking(g, j, f, n + o.size, seen + d.recs, flag')
  {
    hide Decode, AfterPayload, IntactPart, CountFrom;
    IntactStep(g, j, f, n, seen);
    assert n == 0 ==> f[n..] == f;
  }

  lemma WalkEnds(g: Gzip, j: Json, f: Bytes, n: nat, seen: seq<Record>, flag: bool)
    requires forall f' :: g.Sized(f')
    requires Walking(g, j, f, n, seen, flag) && n > 0 && !g.open(f[n..]).Member?
    ensures ScanAnswer(g, j, f) == Found(Summary(Count(j, seen), n, flag))
  {
    hide Decode, AfterPayload, IntactPart, CountFrom;
    IntactStep(g, j, f, n, seen);
  }

  lemma OpensAtAll(g: Gzip, j: Json, f: Bytes)
    requires forall f' :: g.Sized(f')
    ensures g.open(f).Short? ==> ScanAnswer(g, j, f) == Found(FRESH_START)
    ensures g.open(f).Alien? ==> ScanAnswer(g, j, f) == NotADump
  {
  }

  /** Scan walks the file member by member; what a member reports is provisional until it
      reads to its end, and then offset and counters are committed together. */
  method Scan(g: Gzip, j: Json, f: Bytes) returns (answer: Scanned)
    requires forall f' :: g.Sized(f')
    ensures answer == ScanAnswer(g, j, f)
  {
    OpensAtAll(g, j, f);
    CountsNone(j, NOTHING);
    hide Decode, AfterPayload, IntactPart, CountFrom, Walking, ScanAnswer, WalkAnswer, Bump, Gzip.Sized;
    var res := FRESH_START;
    hide Summary;
    var n := 0; // countingReader.n
    var counts := NOTHING;
    var gz := g.open(f);
    if gz.Short? {
      return Found(res);
    }
    if gz.Alien? {
      return NotADump;
    }
    ghost var seen: seq<Record> := []; // the records committed so far
    WalkStarts(g, j, f);
    while true
      invariant n <= |f| && gz == g.open(f[n..]) && gz.Member?
      invariant Walking(g, j, f, n, seen, res.tombstones)
      invariant counts == Count(j, seen) && res == Summary(counts, n, res.tombstones)
      decreases |f| - n
    {
      var walk, counts', tombstones := ScanMember(j, gz.data, gz.whole, n == 0, counts, res.tombstones);
      WalkOn(g, j, f, n, seen, res.tombstones, tombstones);
      match walk {
        case Wrong => return NotADump;
        case TooNew(v) => return Refused(v);
        case _ =>
      }
      Flagged(counts, n, res.tombstones, tombstones);
      res := res.(tombstones := tombstones);
      if walk == Broke {
        break;
      }
      ghost var recs := Decode(j, gz.data, gz.whole).recs;
      CountAppend(j, NOTHING, seen, recs);
      assert n + gz.size <= |f|;
      seen, n, counts := seen + recs, n + gz.size, counts';
      Flagged(counts, n, tombstones, tombstones);
      res := Summary(counts, n, tombstones);
      gz := g.open(f[n..]);
      if !gz.Member? {
        WalkEnds(g, j, f, n, seen, res.tombstones);
        break;
      }
    }
    return Found(res);
  }
}
