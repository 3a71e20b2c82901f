/** That what the dump's proofs ask of gzip, of JSON and of a server can be had: a small
    stand-in for each meets its contract, so the theorems about them are not empty. */
module Codecs {
  import opened Wrappers
  import opened DumpFormat
  import opened DumpScan
  import opened DumpFile
  import opened Backup

  // ---------------------------------------------------------------- gzip: marked bytes

  /** Every byte after a 1, and a 0 at the end. */
  function Packed(p: Bytes): Bytes {
    if p == [] then [0] else [1, p[0]] + Packed(p[1..])
  }

  /** What a stream that began with `read` bytes of a member goes on to hold. */
  function Unpacked(f: Bytes, read: nat): Opened {
    if f == [] then Member([], false, read)
    else if f[0] == 0 then Member([], true, read + 1)
    else if f[0] != 1 || |f| == 1 then Member([], false, read)
    else
      match Unpacked(f[2..], read + 2)
      case Member(data, whole, size) => Member([f[1]] + data, whole, size)
      case o => o
  }

  function Open(f: Bytes): Opened {
    if f == [] then Short else Unpacked(f, 0)
  }

  const TOY_GZIP := Gzip(p => Packed(p), f => Open(f))

  lemma {:induction false} UnpacksWhole(p: Bytes, rest: Bytes, read: nat)
    ensures Unpacked(Packed(p) + rest, read) == Member(p, true, read + |Packed(p)|)
  {
    if p == [] {
      assert ([0] + rest)[0] == 0;
    } else {
      var f := Packed(p) + rest;
      assert f[2..] == Packed(p[1..]) + rest && f[0] == 1 && f[1] == p[0];
      UnpacksWhole(p[1..], rest, read + 2);
      assert [p[0]] + p[1..] == p;
    }
  }

  lemma {:induction false} UnpacksTorn(p: Bytes, n: nat, read: nat)
    requires n < |Packed(p)|
    ensures var o := Unpacked(Packed(p)[..n], read); o.Member? && !o.whole && o.data <= p
  {
    if p != [] && n > 1 {
      var f := Packed(p)[..n];
      assert f[2..] == Packed(p[1..])[..n - 2] && f[0] == 1 && f[1] == p[0];
      UnpacksTorn(p[1..], n - 2, read + 2);
      assert [p[0]] + p[1..] == p;
    }
  }

  lemma {:induction false} UnpackedSize(f: Bytes, read: nat)
    ensures var o := Unpacked(f, read); o.Member? && (o.whole ==> read < o.size <= read + |f|)
  {
    if |f| > 1 && f[0] == 1 {
      UnpackedSize(f[2..], read + 2);
    }
  }

  lemma GzipCanBe()
    ensures TOY_GZIP.Valid()
  {
    forall p, rest
      ensures TOY_GZIP.ReadsWhole(p, rest)
    {
      UnpacksWhole(p, rest, 0);
    }
    forall p, n | 0 <= n < |TOY_GZIP.pack(p)|
      ensures TOY_GZIP.ReadsTorn(p, n)
    {
      UnpacksTorn(p, n, 0);
    }
    forall f
      ensures TOY_GZIP.Sized(f)
    {
      UnpackedSize(f, 0);
    }
  }

  // ---------------------------------------------------------------- JSON: unary numbers

  function Unary(n: nat): Bytes {
    if n == 0 then [0] else [1] + Unary(n - 1)
  }

  function Number(n: int): Bytes {
    if n < 0 then [2] + Unary(-n) else [3] + Unary(n)
  }

  function Text(s: string): Bytes {
    if s == "" then [4] else [5] + Unary(s[0] as int) + Text(s[1..])
  }

  function Data(b: Bytes): Bytes {
    if b == [] then [4] else [5] + Unary(b[0] as int) + Data(b[1..])
  }

  function Flag(b: bool): Bytes {
    if b then [1] else [0]
  }

  function Tag(l: Line): Byte {
    match l
    case Header(_, _, _, _, _, _) => 20
    case Doc(_) => 21
    case Att(_, _, _, _, _) => 22
    case Checkpoint(_) => 23
    case Footer(_, _, _, _) => 24
  }

  function Body(l: Line): Bytes {
    match l
    case Header(v, db, sv, st, p, t) => Text(v) + (Text(db) + (Text(sv) + (Text(st) + (Flag(p) + (Flag(t) + [])))))
    case Doc(body) => Data(body) + []
    case Att(id, rev, name, ct, n) => Text(id) + (Text(rev) + (Text(name) + (Text(ct) + (Number(n) + []))))
    case Checkpoint(s) => Text(s) + []
    case Footer(d, e, a, s) => Number(d) + (Number(e) + (Number(a) + (Text(s) + [])))
  }

  function Encoded(l: Line): Bytes { [Tag(l)] + Body(l) }

  lemma {:induction false} UnaryPrefix(a: nat, b: nat, x: Bytes, y: Bytes)
    requires Unary(a) + x == Unary(b) + y
    ensures a == b && x == y
  {
    var left, right := Unary(a) + x, Unary(b) + y;
    assert left[0] == (if a == 0 then 0 else 1) && right[0] == (if b == 0 then 0 else 1);
    if a == 0 {
      assert left[1..] == x && right[1..] == y;
    } else {
      assert left[1..] == Unary(a - 1) + x && right[1..] == Unary(b - 1) + y;
      UnaryPrefix(a - 1, b - 1, x, y);
    }
  }

  lemma Associate(t: Byte, a: Bytes, x: Bytes)
    ensures ([t] + a) + x == [t] + (a + x)
  {
  }

  lemma NumberPrefix(a: int, b: int, x: Bytes, y: Bytes)
    requires Number(a) + x == Number(b) + y
    ensures a == b && x == y
  {
    var m, n := if a < 0 then -a else a, if b < 0 then -b else b;
    var s, t: Byte := if a < 0 then 2 else 3, if b < 0 then 2 else 3;
    hide Unary;
    assert Number(a) == [s] + Unary(m) && Number(b) == [t] + Unary(n);
    hide Number;
    Associate(s, Unary(m), x);
    Associate(t, Unary(n), y);
    TagPrefix(s, t, Unary(m) + x, Unary(n) + y);
    UnaryPrefix(m, n, x, y);
  }

  lemma TextFirst(a: string, x: Bytes)
    ensures var all := Text(a) + x;
            && all != [] && all[0] == (if a == "" then 4 else 5)
            && all[1..] == if a == "" then x else Unary(a[0] as int) + (Text(a[1..]) + x)
  {
    if a != "" {
      var u, d := Unary(a[0] as int), Text(a[1..]);
      assert Text(a) == [5] + u + d;
      hide Text, Unary;
      FirstOff(5, u, d, x);
    }
  }

  lemma {:induction false} TextPrefix(a: string, b: string, x: Bytes, y: Bytes)
    requires Text(a) + x == Text(b) + y
    ensures a == b && x == y
  {
    TextFirst(a, x);
    TextFirst(b, y);
    hide Text, Unary;
    if a != "" {
      UnaryPrefix(a[0] as int, b[0] as int, Text(a[1..]) + x, Text(b[1..]) + y);
      TextPrefix(a[1..], b[1..], x, y);
      assert a == [a[0]] + a[1..] && b == [b[0]] + b[1..];
    }
  }

  lemma DataFirst(a: Bytes, x: Bytes)
    ensures var all := Data(a) + x;
            && all != [] && all[0] == (if a == [] then 4 else 5)
            && all[1..] == if a == [] then x else Unary(a[0] as int) + (Data(a[1..]) + x)
  {
    if a != [] {
      var u, d := Unary(a[0] as int), Data(a[1..]);
      assert Data(a) == [5] + u + d;
      hide Data, Unary;
      FirstOff(5, u, d, x);
    }
  }

  lemma FirstOff(t: Byte, u: Bytes, d: Bytes, x: Bytes)
    ensures ([t] + u + d + x)[0] == t && ([t] + u + d + x)[1..] == u + (d + x)
  {
  }

  lemma {:induction false} DataPrefix(a: Bytes, b: Bytes, x: Bytes, y: Bytes)
    requires Data(a) + x == Data(b) + y
    ensures a == b && x == y
  {
    DataFirst(a, x);
    DataFirst(b, y);
    hide Data, Unary;
    if a != [] {
      UnaryPrefix(a[0] as int, b[0] as int, Data(a[1..]) + x, Data(b[1..]) + y);
      DataPrefix(a[1..], b[1..], x, y);
      assert a == [a[0]] + a[1..] && b == [b[0]] + b[1..];
    }
  }

  lemma TagPrefix(t: Byte, u: Byte, x: Bytes, y: Bytes)
    requires [t] + x == [u] + y
    ensures t == u && x == y
  {
    assert ([t] + x)[0] == t && ([u] + y)[0] == u;
    assert ([t] + x)[1..] == x && ([u] + y)[1..] == y;
  }

  /** Two lines are never written alike. */
  lemma EncodedApart(a: Line, b: Line)
    requires Encoded(a) == Encoded(b)
    ensures a == b
  {
    hide Text, Data, Number;
    TagPrefix(Tag(a), Tag(b), Body(a), Body(b));
    match a
    case Header(_, _, _, _, _, _) => HeadersApart(a, b);
    case Doc(body) => DataPrefix(body, b.body, [], []);
    case Att(id, rev, name, ct, n) =>
      var n', ct', name', rev' := Number(n) + [], Text(ct) + (Number(n) + []), Text(name) + (Text(ct) + (Number(n) + [])),
          Text(rev) + (Text(name) + (Text(ct) + (Number(n) + [])));
      var m', du', mame', sev' := Number(b.length) + [], Text(b.contentType) + (Number(b.length) + []),
          Text(b.name) + (Text(b.contentType) + (Number(b.length) + [])),
          Text(b.rev) + (Text(b.name) + (Text(b.contentType) + (Number(b.length) + [])));
      TextPrefix(id, b.id, rev', sev');
      TextPrefix(rev, b.rev, name', mame');
      TextPrefix(name, b.name, ct', du');
      TextPrefix(ct, b.contentType, n', m');
      NumberPrefix(n, b.length, [], []);
    case Checkpoint(s) => TextPrefix(s, b.seqno, [], []);
    case Footer(d, e, c, s) =>
      NumberPrefix(d, b.docs, Number(e) + (Number(c) + (Text(s) + [])), Number(b.deleted) + (Number(b.attachments) + (Text(b.lastSeq) + [])));
      NumberPrefix(e, b.deleted, Number(c) + (Text(s) + []), Number(b.attachments) + (Text(b.lastSeq) + []));
      NumberPrefix(c, b.attachments, Text(s) + [], Text(b.lastSeq) + []);
      TextPrefix(s, b.lastSeq, [], []);
  }

  lemma HeadersApart(a: Line, b: Line)
    requires a.Header? && b.Header? && Body(a) == Body(b)
    ensures a == b
  {
    hide Text, Flag;
    var flags, flags' := Flag(a.partitioned) + (Flag(a.tombstones) + []), Flag(b.partitioned) + (Flag(b.tombstones) + []);
    var rest, rest' := Text(a.started) + flags, Text(b.started) + flags';
    TextPrefix(a.version, b.version, Text(a.db) + (Text(a.server) + rest), Text(b.db) + (Text(b.server) + rest'));
    TextPrefix(a.db, b.db, Text(a.server) + rest, Text(b.server) + rest');
    TextPrefix(a.server, b.server, rest, rest');
    TextPrefix(a.started, b.started, flags, flags');
    FlagPrefix(a.partitioned, b.partitioned, Flag(a.tombstones) + [], Flag(b.tombstones) + []);
    FlagPrefix(a.tombstones, b.tombstones, [], []);
  }

  lemma FlagPrefix(a: bool, b: bool, x: Bytes, y: Bytes)
    requires Flag(a) + x == Flag(b) + y
    ensures a == b && x == y
  {
    TagPrefix(if a then 1 else 0, if b then 1 else 0, x, y);
  }

  lemma {:induction false} UnaryNoNewline(n: nat)
    ensures NL !in Unary(n)
  {
    if n > 0 {
      UnaryNoNewline(n - 1);
    }
  }

  lemma NumberNoNewline(n: int)
    ensures NL !in Number(n)
  {
    UnaryNoNewline(if n < 0 then -n else n);
  }

  lemma {:induction false} TextNoNewline(s: string)
    ensures NL !in Text(s)
  {
    if s != "" {
      UnaryNoNewline(s[0] as int);
      TextNoNewline(s[1..]);
    }
  }

  lemma {:induction false} DataNoNewline(b: Bytes)
    ensures NL !in Data(b)
  {
    if b != [] {
      UnaryNoNewline(b[0] as int);
      DataNoNewline(b[1..]);
    }
  }

  lemma EncodedNoNewline(l: Line)
    ensures NL !in Encoded(l)
  {
    hide Text, Data, Number;
    match l
    case Header(v, db, sv, st, _, _) =>
      TextNoNewline(v);
      TextNoNewline(db);
      TextNoNewline(sv);
      TextNoNewline(st);
    case Doc(body) => DataNoNewline(body);
    case Att(id, rev, name, ct, n) =>
      TextNoNewline(id);
      TextNoNewline(rev);
      TextNoNewline(name);
      TextNoNewline(ct);
      NumberNoNewline(n);
    case Checkpoint(s) => TextNoNewline(s);
    case Footer(d, e, c, s) =>
      NumberNoNewline(d);
      NumberNoNewline(e);
      NumberNoNewline(c);
      TextNoNewline(s);
  }

  ghost function Decoded(b: Bytes): Option<Line> {
    if l: Line :| Encoded(l) == b then Some(l) else None
  }

  ghost const TOY_JSON := Json(l => Encoded(l), b => Decoded(b), b => "", b => "", b => false)

  lemma JsonCanBe()
    ensures TOY_JSON.Valid()
  {
    forall l: Line
      ensures NL !in TOY_JSON.enc(l) && TOY_JSON.dec(TOY_JSON.enc(l)) == Some(l)
    {
      EncodedNoNewline(l);
      forall k: Line | Encoded(k) == Encoded(l)
        ensures k == l
      {
        EncodedApart(k, l);
      }
    }
  }

  // ---------------------------------------------------------------- a server

  function Strokes(n: nat): string {
    if n == 0 then "" else Strokes(n - 1) + "|"
  }

  lemma {:induction false} StrokesCount(n: nat)
    ensures |Strokes(n)| == n
  {
    if n > 0 {
      StrokesCount(n - 1);
    }
  }

  /** For any feed there are codecs and a server that meet every contract assumed. */
  lemma ContractsCanBeMet(feed: seq<Change>, db: string, partitioned: bool, tombstones: bool) returns (job: Job)
    ensures job.Valid() && job.g == TOY_GZIP && job.s.feed == feed && job.db == db && job.partitioned == partitioned && job.tombstones == tombstones
  {
    GzipCanBe();
    JsonCanBe();
    var s := Server(feed, q => Min(|q|, |feed|), (n: nat) => Strokes(n));
    assert s.Valid() by {
      forall i | 0 <= i <= |feed|
        ensures s.position(s.token(i)) == i
      {
        StrokesCount(i);
      }
    }
    job := Job(TOY_GZIP, TOY_JSON, s, db, partitioned, tombstones);
  }

  /** A run killed when only the compressor's own header had reached the disk leaves a file
      that --resume refuses as no dump. */
  lemma KilledTooEarly(job: Job, a: Args)
    requires job.Valid() && job.g == TOY_GZIP && a.batch > 0
    ensures job.Attempt([], a, [1]) && !job.Accepts([1]) && ScanAnswer(job.g, job.j, [1]) == NotADump
  {
    var h := job.HeaderRecord(a);
    var plan := job.PlanFor([], a);
    job.PlanSound(h, a.batch, true, job.StartOf([], a.since), job.Counters(FRESH_START));
    job.PlanOpens(h, a.batch, true, job.StartOf([], a.since), job.Counters(FRESH_START));
    hide Job.Plan, Json.Valid, Gzip.Valid;
    TornAtOne(job.j, plan[0]);
    assert plan[..0] == [] && [] + Pack(job.g, job.j, []) + [1] == [1];
    assert job.StoppedIn([], plan, 0, [1], [1]);
  }

  lemma TornAtOne(j: Json, m: seq<Record>)
    requires m != [] && AllWellFormed(m)
    ensures TornMember(TOY_GZIP, j, [1], m)
  {
    var p := Encode(j, m);
    assert |EncodeOne(j, m[0])| > 0;
    assert p != [] && [1] < TOY_GZIP.pack(p);
  }
}
