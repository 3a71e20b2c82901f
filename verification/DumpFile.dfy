/** Dump files as Writer leaves them: whole members, and after an interruption a torn one.
    What Scan reports on every such file, byte by byte. */
module DumpFile {
  import opened Wrappers
  import opened DumpFormat
  import opened DumpScan

  /** The bytes of a run of members. */
  function Pack(g: Gzip, j: Json, ms: seq<seq<Record>>): Bytes {
    if ms == [] then [] else g.pack(Encode(j, ms[0])) + Pack(g, j, ms[1..])
  }

  function Flat<T>(ms: seq<seq<T>>): seq<T> {
    if ms == [] then [] else ms[0] + Flat(ms[1..])
  }

  predicate Sound(ms: seq<seq<Record>>) {
    forall m :: m in ms ==> AllWellFormed(m)
  }

  /** A dump's first member opens with the header. */
  predicate Opens(m: seq<Record>) {
    m != [] && m[0].line.Header?
  }

  /** What an interruption leaves of a member meant to hold m: a strict byte prefix of the
      gzip of whatever part p of it had been handed to the compressor. */
  ghost predicate TornMember(g: Gzip, j: Json, t: Bytes, m: seq<Record>) {
    AllWellFormed(m) && exists p :: p <= Encode(j, m) && t < g.pack(p)
  }

  lemma {:induction false} PackAppend(g: Gzip, j: Json, a: seq<seq<Record>>, b: seq<seq<Record>>)
    ensures Pack(g, j, a + b) == Pack(g, j, a) + Pack(g, j, b)
  {
    if a == [] {
      assert a + b == b;
    } else {
      assert (a + b)[1..] == a[1..] + b;
      PackAppend(g, j, a[1..], b);
    }
  }

  lemma {:induction false} FlatAppend<T>(a: seq<seq<T>>, b: seq<seq<T>>)
    ensures Flat(a + b) == Flat(a) + Flat(b)
  {
    if a == [] {
      assert a + b == b;
    } else {
      assert (a + b)[1..] == a[1..] + b;
      FlatAppend(a[1..], b);
    }
  }

  lemma FlatSnoc<T>(a: seq<seq<T>>, m: seq<T>)
    ensures Flat(a + [m]) == Flat(a) + m
  {
    FlatAppend(a, [m]);
    assert Flat([m]) == m + [];
  }

  /** A whole member in front of anything joins the intact part. */
  lemma IntactMember(g: Gzip, j: Json, m: seq<Record>, rest: Bytes)
    requires g.Valid() && j.Valid() && AllWellFormed(m)
    ensures var p := g.pack(Encode(j, m));
            IntactPart(g, j, p + rest) == IntactPart(g, j, rest).Behind(m, |p|)
  {
    var p := g.pack(Encode(j, m));
    assert g.ReadsWhole(Encode(j, m), rest);
    RoundTrip(j, m);
    assert (p + rest)[|p|..] == rest;
  }

  lemma {:induction false} IntactPack(g: Gzip, j: Json, ms: seq<seq<Record>>, rest: Bytes)
    requires g.Valid() && j.Valid() && Sound(ms)
    ensures IntactPart(g, j, Pack(g, j, ms) + rest)
         == IntactPart(g, j, rest).Behind(Flat(ms), |Pack(g, j, ms)|)
  {
    hide IntactPart;
    var i := IntactPart(g, j, rest);
    if ms == [] {
      assert Pack(g, j, ms) + rest == rest;
      assert Flat(ms) + i.recs == i.recs;
    } else {
      var p, more := g.pack(Encode(j, ms[0])), Pack(g, j, ms[1..]);
      assert p + more + rest == p + (more + rest);
      IntactMember(g, j, ms[0], more + rest);
      IntactPack(g, j, ms[1..], rest);
      assert ms[0] + (Flat(ms[1..]) + i.recs) == Flat(ms) + i.recs;
    }
  }

  /** A torn member adds nothing, whatever it still decodes to. */
  lemma IntactTorn(g: Gzip, j: Json, t: Bytes, m: seq<Record>)
    requires g.Valid() && j.Valid() && TornMember(g, j, t, m)
    ensures IntactPart(g, j, t).recs == [] && IntactPart(g, j, t).offset == 0
    ensures IntactPart(g, j, t).tail.end == Torn
    ensures g.open(t).Short? || (g.open(t).Member? && !g.open(t).whole && Cut(Decode(j, g.open(t).data, false).recs, m))
  {
    var p :| p <= Encode(j, m) && t < g.pack(p);
    assert g.ReadsTorn(p, |t|);
    assert g.pack(p)[..|t|] == t;
    if g.open(t).Member? {
      var data := g.open(t).data;
      assert data <= Encode(j, m);
      DecodeTorn(j, m, data);
    }
  }

  /** Scan on whole members followed by a torn one: everything it reports describes the end
      of the last whole member; a checkpoint inside the torn one does not count. */
  lemma ScanOfMembers(g: Gzip, j: Json, ms: seq<seq<Record>>, t: Bytes, m: seq<Record>)
    requires g.Valid() && j.Valid() && Sound(ms) && ms != [] && Opens(ms[0])
    requires TornMember(g, j, t, m)
    ensures ScanAnswer(g, j, Pack(g, j, ms) + t)
         == Found(Summary(Count(j, Flat(ms)), |Pack(g, j, ms)|, ms[0][0].line.tombstones))
  {
    IntactPack(g, j, ms, t);
    IntactTorn(g, j, t, m);
    assert Flat(ms) + [] == Flat(ms);
    var p, more := Encode(j, ms[0]), Pack(g, j, ms[1..]) + t;
    assert Pack(g, j, ms) + t == g.pack(p) + more;
    assert g.ReadsWhole(p, more);
    RoundTrip(j, ms[0]);
  }

  /** When not even the first member is whole, Scan either starts from nothing or refuses
      the file, and it refuses exactly when gzip opens it but no record can be read. */
  lemma ScanOfTornStart(g: Gzip, j: Json, t: Bytes, m: seq<Record>)
    requires g.Valid() && j.Valid() && TornMember(g, j, t, m) && Opens(m)
    ensures ScanAnswer(g, j, t)
         == if g.open(t).Member? && Decode(j, g.open(t).data, false).recs != [] then Found(Summary(NOTHING, 0, m[0].line.tombstones))
            else if g.open(t).Short? then Found(FRESH_START)
            else NotADump
  {
    IntactTorn(g, j, t, m);
  }

  // ---------------------------------------------------------------- files that are no dump

  /** A gzip file that holds nothing, or whose first record is no header, is no dump, whatever
      follows. */
  lemma NoHeaderNoDump(g: Gzip, j: Json, m: seq<Record>, rest: Bytes)
    requires g.Valid() && j.Valid() && AllWellFormed(m) && (m == [] || !m[0].line.Header?)
    ensures ScanAnswer(g, j, g.pack(Encode(j, m)) + rest) == NotADump
  {
    assert g.ReadsWhole(Encode(j, m), rest);
    RoundTrip(j, m);
  }

  /** A dump of a version this reader does not know is refused by that version. */
  lemma NewerIsRefused(g: Gzip, j: Json, h: Line, more: Bytes, rest: Bytes)
    requires g.Valid() && j.Valid() && h.Header? && h.version != "" && h.version != "1.0" && h.version != "1.1"
    ensures ScanAnswer(g, j, g.pack(j.enc(h) + [NL] + more) + rest) == Refused(h.version)
  {
    assert g.ReadsWhole(j.enc(h) + [NL] + more, rest);
    HeadersRead(j, h, more, true);
    hide Decode;
  }

  // ---------------------------------------------------------------- byte prefixes

  /** How many members lie wholly within the first n bytes. */
  function WholeWithin(g: Gzip, j: Json, ms: seq<seq<Record>>, n: nat): (k: nat)
    ensures k <= |ms|
  {
    if ms == [] || n < |g.pack(Encode(j, ms[0]))| then 0
    else 1 + WholeWithin(g, j, ms[1..], n - |g.pack(Encode(j, ms[0]))|)
  }

  /** Cutting a dump anywhere leaves whole members and a strict prefix of the next. */
  lemma {:induction false} CutAnywhere(g: Gzip, j: Json, ms: seq<seq<Record>>, n: nat) returns (t: Bytes)
    requires n <= |Pack(g, j, ms)|
    ensures var k := WholeWithin(g, j, ms, n);
            && Pack(g, j, ms)[..n] == Pack(g, j, ms[..k]) + t
            && if k < |ms| then t < g.pack(Encode(j, ms[k])) else t == []
  {
    if ms == [] {
      t := [];
    } else {
      var p := g.pack(Encode(j, ms[0]));
      if n < |p| {
        t := p[..n];
        assert Pack(g, j, ms)[..n] == t;
      } else {
        t := CutAnywhere(g, j, ms[1..], n - |p|);
        var k := WholeWithin(g, j, ms[1..], n - |p|);
        assert Pack(g, j, ms)[..n] == p + Pack(g, j, ms[1..])[..n - |p|];
        assert ms[..k + 1][1..] == ms[1..][..k];
      }
    }
  }

  /** On every byte prefix of a dump that holds its first member, Scan reports exactly the
      counters of the whole members it holds and the offset at which the last one ends. */
  lemma ScanOfPrefix(g: Gzip, j: Json, ms: seq<seq<Record>>, n: nat)
    requires g.Valid() && j.Valid() && Sound(ms) && ms != [] && Opens(ms[0])
    requires n <= |Pack(g, j, ms)|
    ensures var k := WholeWithin(g, j, ms, n);
            var answer := ScanAnswer(g, j, Pack(g, j, ms)[..n]);
            var there := Pack(g, j, ms[..k]);
            && |there| <= n && (k < |ms| ==> n < |Pack(g, j, ms[..k + 1])|)
            && if k > 0
               then answer == Found(Summary(Count(j, Flat(ms[..k])), |there|, ms[0][0].line.tombstones))
               else answer == NotADump || (answer.Found? && answer.res == Summary(NOTHING, 0, answer.res.tombstones))
  {
    var k := WholeWithin(g, j, ms, n);
    var t := CutAnywhere(g, j, ms, n);
    var m := if k < |ms| then ms[k] else [];
    assert TornMember(g, j, t, m) by {
      assert g.ReadsWhole(Encode(j, m), []);
    }
    if k < |ms| {
      PackAppend(g, j, ms[..k], [ms[k]]);
      assert ms[..k + 1] == ms[..k] + [ms[k]];
      assert Pack(g, j, [ms[k]]) == g.pack(Encode(j, ms[k]));
    }
    if k > 0 {
      ScanOfMembers(g, j, ms[..k], t, m);
    } else {
      assert Pack(g, j, ms[..0]) + t == t;
      ScanOfTornStart(g, j, t, m);
    }
  }

  // ---------------------------------------------------------------- reading across members

  /** The multistream gzip reader: payloads joined, and whether the end was a clean one. */
  function Inflate(g: Gzip, f: Bytes): (Bytes, bool)
    requires forall f' :: g.Sized(f')
    decreases |f|
  {
    assert g.Sized(f);
    if f == [] then ([], true) else
      match g.open(f)
      case Member(data, whole, size) =>
        if whole then (data + Inflate(g, f[size..]).0, Inflate(g, f[size..]).1) else (data, false)
      case _ => ([], false)
  }

  /** Every record NewReader(f) yields. */
  function ReadAll(g: Gzip, j: Json, f: Bytes): Decoded
    requires forall f' :: g.Sized(f')
  {
    Decode(j, Inflate(g, f).0, Inflate(g, f).1)
  }

  lemma {:induction false} InflatePack(g: Gzip, j: Json, ms: seq<seq<Record>>)
    requires g.Valid()
    ensures Inflate(g, Pack(g, j, ms)) == (Encode(j, Flat(ms)), true)
  {
    if ms != [] {
      var p, more := Encode(j, ms[0]), Pack(g, j, ms[1..]);
      assert g.ReadsWhole(p, more);
      assert (g.pack(p) + more)[|g.pack(p)|..] == more;
      InflatePack(g, j, ms[1..]);
      EncodeAppend(j, ms[0], Flat(ms[1..]));
    }
  }

  lemma {:induction false} FlatSound(ms: seq<seq<Record>>)
    requires Sound(ms)
    ensures AllWellFormed(Flat(ms))
  {
    if ms != [] {
      assert ms[0] in ms;
      FlatSound(ms[1..]);
    }
  }

  /** Member boundaries are invisible to a reader. */
  lemma ReadPack(g: Gzip, j: Json, ms: seq<seq<Record>>)
    requires g.Valid() && j.Valid() && Sound(ms)
    ensures ReadAll(g, j, Pack(g, j, ms)) == Decoded(Flat(ms), Clean)
  {
    InflatePack(g, j, ms);
    FlatSound(ms);
    RoundTrip(j, Flat(ms));
  }

  lemma {:induction false} InflateBehind(g: Gzip, j: Json, ms: seq<seq<Record>>, t: Bytes)
    requires g.Valid()
    ensures Inflate(g, Pack(g, j, ms) + t) == (Encode(j, Flat(ms)) + Inflate(g, t).0, Inflate(g, t).1)
  {
    if ms == [] {
      assert Pack(g, j, ms) + t == t && Encode(j, Flat(ms)) + Inflate(g, t).0 == Inflate(g, t).0;
    } else {
      var p, more := Encode(j, ms[0]), Pack(g, j, ms[1..]);
      var f := g.pack(p) + (more + t);
      assert Pack(g, j, ms) + t == f;
      assert g.ReadsWhole(p, more + t);
      assert f[|g.pack(p)|..] == more + t;
      hide Encode;
      InflateBehind(g, j, ms[1..], t);
      EncodeAppend(j, ms[0], Flat(ms[1..]));
      Associate(p, Encode(j, Flat(ms[1..])), Inflate(g, t).0);
    }
  }

  /** A dump with a torn member behind it reads to its whole members' records, perhaps some of
      the torn one's, and then an error: never to a clean end. */
  lemma TornEndIsSeen(g: Gzip, j: Json, ms: seq<seq<Record>>, m: seq<Record>, n: nat)
    requires g.Valid() && j.Valid() && Sound(ms) && AllWellFormed(m) && 0 < n < |g.pack(Encode(j, m))|
    ensures var r := ReadAll(g, j, Pack(g, j, ms) + g.pack(Encode(j, m))[..n]);
            r.end == Torn && Flat(ms) <= r.recs && Cut(r.recs[|Flat(ms)|..], m)
  {
    var p := Encode(j, m);
    var t := g.pack(p)[..n];
    assert g.ReadsTorn(p, n);
    InflateBehind(g, j, ms, t);
    FlatSound(ms);
    var data := Inflate(g, t).0;
    DecodeAppend(j, Flat(ms), data, false);
    DecodeTorn(j, m, data);
  }

  /** And so does one with anything else behind it: exactly its records, and an error. */
  lemma JunkBehindIsSeen(g: Gzip, j: Json, ms: seq<seq<Record>>, junk: Bytes)
    requires g.Valid() && j.Valid() && Sound(ms) && junk != [] && !g.open(junk).Member?
    ensures ReadAll(g, j, Pack(g, j, ms) + junk) == Decoded(Flat(ms), Torn)
  {
    InflateBehind(g, j, ms, junk);
    FlatSound(ms);
    DecodeAppend(j, Flat(ms), [], false);
    DecodeNothing(j);
  }

  lemma DecodeNothing(j: Json)
    ensures Decode(j, [], false) == Decoded([], Torn)
  {
  }
}
