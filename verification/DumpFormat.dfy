/** The cdb dump format (internal/backup/format.go).

    A dump is a stream of newline-terminated record lines; an "att" line is followed
    by exactly the declared number of raw payload bytes and one newline.  JSON itself is
    a parameter: any encoding of lines that is injective and free of newlines will do. */
module DumpFormat {
  import opened Wrappers

  newtype Byte = x: int | 0 <= x < 256
  type Bytes = seq<Byte>

  const NL: Byte := 10
  const FORMAT_VERSION := "1.1"

  /** One record line. */
  datatype Line =
    | Header(version: string, db: string, server: string, started: string, partitioned: bool, tombstones: bool)
    | Doc(body: Bytes)
    | Att(id: string, rev: string, name: string, contentType: string, length: int)
    | Checkpoint(seqno: string)
    | Footer(docs: int, deleted: int, attachments: int, lastSeq: string)

  /** A record with the payload that follows it; only attachments carry one. */
  datatype Record = Record(line: Line, payload: Bytes)

  predicate SupportedVersion(v: string) {
    v == "" || v == "1.0" || v == FORMAT_VERSION
  }

  /** What encoding/json is to this package. */
  datatype Json = Json(
    enc: Line -> Bytes,
    dec: Bytes -> Option<Line>,
    idOf: Bytes -> string,
    revOf: Bytes -> string,
    isTombstone: Bytes -> bool)
  {
    ghost predicate Valid() {
      forall l: Line :: NL !in enc(l) && dec(enc(l)) == Some(l)
    }
  }

  /** A record the Writer accepts and a reader of this format accepts back. */
  predicate WellFormed(r: Record) {
    match r.line
    case Att(_, _, _, _, length) => length == |r.payload|
    case Header(version, _, _, _, _, _) => r.payload == [] && SupportedVersion(version)
    case _ => r.payload == []
  }

  predicate AllWellFormed(rs: seq<Record>) {
    forall r :: r in rs ==> WellFormed(r)
  }

  // ---------------------------------------------------------------- encoding

  function EncodeOne(j: Json, r: Record): Bytes {
    j.enc(r.line) + [NL] + if r.line.Att? then r.payload + [NL] else []
  }

  function Encode(j: Json, rs: seq<Record>): Bytes {
    if rs == [] then [] else EncodeOne(j, rs[0]) + Encode(j, rs[1..])
  }

  lemma {:induction false} EncodeAppend(j: Json, a: seq<Record>, b: seq<Record>)
    ensures Encode(j, a + b) == Encode(j, a) + Encode(j, b)
  {
    if a == [] {
      assert a + b == b;
    } else {
      assert (a + b)[1..] == a[1..] + b;
      EncodeAppend(j, a[1..], b);
    }
  }

  // ---------------------------------------------------------------- decoding

  /** Why a reader stopped: a clean end of the stream, the stream's own error (a lost
      tail), a line that is no record, or a header this binary refuses. */
  datatype End = Clean | Torn | Malformed | Newer(version: string)

  datatype Decoded = Decoded(recs: seq<Record>, end: End) {
    function Cons(r: Record): Decoded { Decoded([r] + recs, end) }
  }

  /** The end a reader reports when its bytes run out. */
  function Dry(clean: bool): End { if clean then Clean else Torn }

  function LineEnd(data: Bytes): (n: nat)
    ensures n <= |data|
    ensures forall i :: 0 <= i < n ==> data[i] != NL
    ensures n < |data| ==> data[n] == NL
  {
    if data == [] || data[0] == NL then 0 else 1 + LineEnd(data[1..])
  }

  /** How many bytes io.LimitReader(r, length) yields when `avail` are left. */
  function Taken(length: int, avail: nat): (n: nat)
    ensures n <= avail
  {
    if length < 0 then 0 else Min(length, avail)
  }

  /** All the records a stream holds, payloads included, and how it ends.  `clean` says
      whether running out of bytes is the end of the stream or an error. */
  function Decode(j: Json, data: Bytes, clean: bool): Decoded
    decreases |data|
  {
    if data == [] then Decoded([], Dry(clean)) else
      var n := LineEnd(data);
      if n == |data| && !clean then Decoded([], Torn) else
        match j.dec(data[..n])
        case None => Decoded([], Malformed)
        case Some(line) =>
          if line.Header? && !SupportedVersion(line.version) then Decoded([], Newer(line.version)) else
            var rest := if n < |data| then data[n + 1..] else [];
            if line.Att? then
              var k := Taken(line.length, |rest|);
              AfterPayload(j, rest[k..], clean).Cons(Record(line, rest[..k]))
            else
              Decode(j, rest, clean).Cons(Record(line, []))
  }

  /** What follows a payload once it is drained: one separator byte, then records. */
  function AfterPayload(j: Json, tail: Bytes, clean: bool): Decoded
    decreases |tail|, 0
  {
    if tail == [] then Decoded([], Dry(clean)) else Decode(j, tail[1..], clean)
  }

  /** The first line of a stream, or why there is none. */
  function FirstLine(j: Json, data: Bytes, clean: bool): Result<Line, End> {
    var n := LineEnd(data);
    if data == [] then Err(Dry(clean))
    else if n == |data| && !clean then Err(Torn)
    else
      match j.dec(data[..n])
      case None => Err(Malformed)
      case Some(line) => if line.Header? && !SupportedVersion(line.version) then Err(Newer(line.version)) else Ok(line)
  }

  /** What stands behind the first line. */
  function Behind(data: Bytes): (rest: Bytes)
    ensures data != [] ==> |rest| < |data|
  {
    var n := LineEnd(data);
    if n < |data| then data[n + 1..] else []
  }

  lemma DecodeFirst(j: Json, data: Bytes, clean: bool)
    ensures var rest, first := Behind(data), FirstLine(j, data, clean);
            Decode(j, data, clean) ==
            if first.Err? then Decoded([], first.error)
            else if first.value.Att? then
              var k := Taken(first.value.length, |rest|);
              AfterPayload(j, rest[k..], clean).Cons(Record(first.value, rest[..k]))
            else Decode(j, rest, clean).Cons(Record(first.value, []))
  {
  }

  /** No record is handed more payload than it declares. */
  predicate Bounded(r: Record) {
    r.line.Att? ==> |r.payload| <= if r.line.length < 0 then 0 else r.line.length
  }

  predicate AllBounded(rs: seq<Record>) {
    forall r :: r in rs ==> Bounded(r)
  }

  lemma {:induction false} DecodeBounded(j: Json, data: Bytes, clean: bool)
    ensures AllBounded(Decode(j, data, clean).recs)
    decreases |data|
  {
    DecodeFirst(j, data, clean);
    hide Decode, FirstLine;
    var rest, first := Behind(data), FirstLine(j, data, clean);
    if data != [] && first.Ok? {
      var line := first.value;
      if line.Att? {
        var k := Taken(line.length, |rest|);
        var tail := rest[k..];
        if tail != [] {
          DecodeBounded(j, tail[1..], clean);
        }
        ConsBounded(AfterPayload(j, tail, clean), Record(line, rest[..k]));
      } else {
        DecodeBounded(j, rest, clean);
        ConsBounded(Decode(j, rest, clean), Record(line, []));
      }
    } else {
      NoLine(j, data, clean);
    }
  }

  lemma NoLine(j: Json, data: Bytes, clean: bool)
    ensures data == [] ==> FirstLine(j, data, clean).Err?
  {
  }

  lemma ConsBounded(d: Decoded, r: Record)
    requires AllBounded(d.recs) && Bounded(r)
    ensures AllBounded(d.Cons(r).recs)
  {
  }

  lemma LineEndAt(line: Bytes, rest: Bytes)
    requires NL !in line
    ensures LineEnd(line + [NL] + rest) == |line|
  {
    var data := line + [NL] + rest;
    assert data[|line|] == NL;
    assert forall i :: 0 <= i < |line| ==> data[i] == line[i];
  }

  /** One record in front of anything decodes to itself, whatever its payload holds. */
  lemma DecodeOne(j: Json, r: Record, rest: Bytes, clean: bool)
    requires j.Valid() && WellFormed(r)
    ensures Decode(j, EncodeOne(j, r) + rest, clean) == Decode(j, rest, clean).Cons(r)
  {
    var line := j.enc(r.line);
    var after := (if r.line.Att? then r.payload + [NL] else []) + rest;
    var data := EncodeOne(j, r) + rest;
    assert data == line + [NL] + after;
    LineEndAt(line, after);
    assert data[..|line|] == line && data[|line| + 1..] == after;
    if r.line.Att? {
      assert after[..|r.payload|] == r.payload;
      assert after[|r.payload|..] == [NL] + rest;
      assert ([NL] + rest)[1..] == rest;
    }
  }

  lemma EncodeHead(j: Json, rs: seq<Record>, rest: Bytes)
    requires rs != []
    ensures Encode(j, rs) + rest == EncodeOne(j, rs[0]) + (Encode(j, rs[1..]) + rest)
  {
  }

  lemma ConsHead(rs: seq<Record>, d: Decoded)
    requires rs != []
    ensures Decoded(rs[1..] + d.recs, d.end).Cons(rs[0]) == Decoded(rs + d.recs, d.end)
  {
    assert [rs[0]] + (rs[1..] + d.recs) == rs + d.recs;
  }

  /** Reading back what was written in front of any further stream. */
  lemma {:induction false} DecodeAppend(j: Json, rs: seq<Record>, rest: Bytes, clean: bool)
    requires j.Valid() && AllWellFormed(rs)
    ensures Decode(j, Encode(j, rs) + rest, clean)
         == Decoded(rs + Decode(j, rest, clean).recs, Decode(j, rest, clean).end)
  {
    if rs == [] {
      assert Encode(j, rs) + rest == rest;
    } else {
      EncodeHead(j, rs, rest);
      DecodeOne(j, rs[0], Encode(j, rs[1..]) + rest, clean);
      DecodeAppend(j, rs[1..], rest, clean);
      ConsHead(rs, Decode(j, rest, clean));
    }
  }

  /** Round trip: any sequence of accepted records is read back as itself. */
  lemma RoundTrip(j: Json, rs: seq<Record>)
    requires j.Valid() && AllWellFormed(rs)
    ensures Decode(j, Encode(j, rs), true) == Decoded(rs, Clean)
  {
    DecodeAppend(j, rs, [], true);
    assert Encode(j, rs) + [] == Encode(j, rs);
    assert rs + [] == rs;
  }

  /** Two records agree when their lines do and the second's payload starts with the first's. */
  predicate Cut(got: seq<Record>, rs: seq<Record>) {
    && |got| <= |rs|
    && (forall i :: 0 <= i < |got| ==> got[i].line == rs[i].line && got[i].payload <= rs[i].payload)
    && (forall i :: 0 <= i < |got| - 1 ==> got[i] == rs[i])
  }

  /** A torn stream yields a prefix of the records written - possibly all of them, the
      last one perhaps with a short payload - and then the stream's own error. */
  lemma {:induction false} DecodeTorn(j: Json, rs: seq<Record>, data: Bytes)
    requires j.Valid() && AllWellFormed(rs)
    requires data <= Encode(j, rs)
    ensures Decode(j, data, false).end == Torn
    ensures Cut(Decode(j, data, false).recs, rs)
    decreases |rs|
  {
    if rs == [] || data == [] {
    } else {
      var one := EncodeOne(j, rs[0]);
      var all := Encode(j, rs);
      hide Decode, AfterPayload, EncodeOne;
      if |one| <= |data| {
        var more := data[|one|..];
        assert data == one + more;
        assert more == all[|one|..][..|more|];
        assert all[|one|..] == Encode(j, rs[1..]);
        DecodeOne(j, rs[0], more, false);
        DecodeTorn(j, rs[1..], more);
      } else {
        assert data == one[..|data|];
        DecodeTornOne(j, rs[0], data);
      }
    }
  }

  lemma DecodeTornOne(j: Json, r: Record, data: Bytes)
    requires j.Valid() && WellFormed(r)
    requires data < EncodeOne(j, r) && data != []
    ensures Decode(j, data, false).end == Torn
    ensures Cut(Decode(j, data, false).recs, [r])
  {
    var line := j.enc(r.line);
    var one := EncodeOne(j, r);
    if |data| <= |line| {
      assert data == line[..|data|];
      assert forall i :: 0 <= i < |data| ==> data[i] == line[i];
      assert LineEnd(data) == |data|;
    } else {
      var rest := data[|line| + 1..];
      assert data == line + [NL] + rest;
      LineEndAt(line, rest);
      assert data[..|line|] == line;
      assert one == line + [NL] + (r.payload + [NL]);
      assert rest == (r.payload + [NL])[..|rest|];
      assert rest <= r.payload;
    }
  }

  // ---------------------------------------------------------------- line by line

  /** How a record lies in the file: its line, a line feed, and for an attachment exactly the
      declared number of bytes and one line feed more. */
  lemma Layout(j: Json, r: Record)
    requires WellFormed(r)
    ensures var b, n := EncodeOne(j, r), |j.enc(r.line)|;
            && |b| == n + (if r.line.Att? then r.line.length + 2 else 1)
            && b[..n] == j.enc(r.line) && b[n] == 10
            && (r.line.Att? ==> b[n + 1..n + 1 + r.line.length] == r.payload && b[|b| - 1] == 10)
  {
    var line := j.enc(r.line);
    if r.line.Att? {
      assert EncodeOne(j, r) == line + [NL] + (r.payload + [NL]);
    } else {
      assert EncodeOne(j, r) == line + [NL] + [];
    }
  }

  /** Which headers are read: those of a dump without a version, of version 1.0, and of 1.1.
      At any other the reader stops and names the version. */
  lemma HeadersRead(j: Json, h: Line, rest: Bytes, clean: bool)
    requires j.Valid() && h.Header?
    ensures Decode(j, j.enc(h) + [NL] + rest, clean) ==
            if h.version == "" || h.version == "1.0" || h.version == "1.1"
            then Decode(j, rest, clean).Cons(Record(h, []))
            else Decoded([], Newer(h.version))
  {
    FirstLineAt(j, j.enc(h), rest, clean);
    DecodeFirst(j, j.enc(h) + [NL] + rest, clean);
    hide Decode;
  }

  /** A line that is no record stops the reader there, whatever follows. */
  lemma JunkStops(j: Json, line: Bytes, rest: Bytes, clean: bool)
    requires NL !in line && j.dec(line) == None
    ensures Decode(j, line + [NL] + rest, clean) == Decoded([], Malformed)
  {
    FirstLineAt(j, line, rest, clean);
    DecodeFirst(j, line + [NL] + rest, clean);
    hide Decode;
  }

  /** A last line without its line feed is read if the stream ends there, and is the stream's
      error if it broke. */
  lemma LastLine(j: Json, l: Line, clean: bool)
    requires j.Valid() && j.enc(l) != [] && WellFormed(Record(l, []))
    ensures Decode(j, j.enc(l), clean) == if clean then Decoded([Record(l, [])], Clean) else Decoded([], Torn)
    ensures Decode(j, [], clean) == Decoded([], if clean then Clean else Torn)
  {
    var line := j.enc(l);
    assert NL !in line && j.dec(line) == Some(l);
    assert line[..|line|] == line;
    hide LineEnd;
  }

  lemma FirstLineAt(j: Json, line: Bytes, rest: Bytes, clean: bool)
    requires NL !in line
    ensures var data := line + [NL] + rest;
            && Behind(data) == rest
            && FirstLine(j, data, clean) ==
               match j.dec(line)
               case None => Err(Malformed)
               case Some(l) => if l.Header? && !SupportedVersion(l.version) then Err(Newer(l.version)) else Ok(l)
  {
    var data := line + [NL] + rest;
    LineEndAt(line, rest);
    assert data[..|line|] == line && data[|line| + 1..] == rest;
    hide LineEnd;
  }

  // ---------------------------------------------------------------- Reader

  datatype Next = Got(line: Line) | Stop(end: End)

  /** Reader: `data` is what its buffered source still holds, `pending` and `left` are the
      io.LimitReader over the current attachment.  The ghost fields are what a caller sees:
      the records still to come with the stream's end, and the unread part of a payload. */
  class Reader {
    const j: Json
    const clean: bool
    var data: Bytes
    var pending: bool
    var left: nat
    ghost var ahead: Decoded
    ghost var content: Bytes

    ghost predicate Valid()
      reads this
    {
      if pending then
        && content == data[..Min(left, |data|)]
        && ahead == AfterPayload(j, data[Min(left, |data|)..], clean)
      else
        content == [] && ahead == Decode(j, data, clean)
    }

    constructor (j: Json, data: Bytes, clean: bool)
      ensures Valid() && ahead == Decode(j, data, clean)
    {
      this.j, this.clean := j, clean;
      this.data, pending, left := data, false, 0;
      ahead, content := Decode(j, data, clean), [];
    }

    /** Consumes up to k bytes of the current payload. */
    method Read(k: nat) returns (out: Bytes)
      requires Valid()
      modifies this
      ensures Valid() && ahead == old(ahead)
      ensures out == old(content)[..Min(k, |old(content)|)] && content == old(content)[|out|..]
    {
      if !pending {
        return [];
      }
      var n := Min(k, Min(left, |data|));
      out := data[..n];
      assert data[Min(left, |data|)..] == data[n..][Min(left - n, |data| - n)..];
      assert data[..Min(left, |data|)][n..] == data[n..][..Min(left - n, |data| - n)];
      data, left, content := data[n..], left - n, content[n..];
    }

    /** Discards the rest of the current payload; false when the stream broke inside it. */
    method Drain() returns (ok: bool)
      requires Valid()
      modifies this
      ensures ahead == old(ahead)
      ensures if ok then Valid() else ahead == Decoded([], Torn)
    {
      if pending {
        if !clean && |data| < left {
          return false;
        }
        data, left := data[Min(left, |data|)..], left - Min(left, |data|);
        assert data[Min(left, |data|)..] == data;
        content := data[..Min(left, |data|)];
      }
      return true;
    }

    /** Next drains whatever is left of the previous payload, then reads one record. */
    method Next() returns (r: Next)
      requires Valid()
      modifies this
      ensures old(ahead).recs == [] ==> r == Stop(old(ahead).end)
      ensures old(ahead).recs != [] ==>
                && Valid()
                && r == Got(old(ahead).recs[0].line)
                && content == old(ahead).recs[0].payload
                && ahead == Decoded(old(ahead).recs[1..], old(ahead).end)
    {
      if pending {
        data, left := data[Min(left, |data|)..], left - Min(left, |data|);
        if data == [] {
          return Stop(Dry(clean));
        }
        data, pending := data[1..], false;
      }
      content := [];
      r := NextLine();
    }

    /** The record a reader stands before. */
    method NextLine() returns (r: Next)
      requires Valid() && !pending
      modifies this
      ensures old(ahead).recs == [] ==> r == Stop(old(ahead).end)
      ensures old(ahead).recs != [] ==>
                && Valid()
                && r == Got(old(ahead).recs[0].line)
                && content == old(ahead).recs[0].payload
                && ahead == Decoded(old(ahead).recs[1..], old(ahead).end)
    {
      DecodeFirst(j, data, clean);
      hide Decode, AfterPayload, LineEnd, SupportedVersion;
      if data == [] {
        return Stop(Dry(clean));
      }
      var n := LineEnd(data);
      if n == |data| && !clean {
        return Stop(Torn);
      }
      var parsed := j.dec(data[..n]);
      data := if n < |data| then data[n + 1..] else [];
      match parsed {
        case None =>
          return Stop(Malformed);
        case Some(line) =>
          if line.Header? && !SupportedVersion(line.version) {
            return Stop(Newer(line.version));
          }
          if line.Att? {
            pending, left := true, if line.length < 0 then 0 else line.length;
          }
          content := ahead.recs[0].payload;
          ahead := Decoded(ahead.recs[1..], ahead.end);
          return Got(line);
      }
    }
  }

  /** A caller that reads every record of a written stream, consuming from each payload
      whatever part it likes, sees every line and the bytes it asked for. */
  method ReadBack(j: Json, rs: seq<Record>, wants: seq<nat>) returns (lines: seq<Line>, parts: seq<Bytes>)
    requires j.Valid() && AllWellFormed(rs) && |wants| == |rs|
    ensures |lines| == |parts| == |rs|
    ensures forall i :: 0 <= i < |rs| ==>
              lines[i] == rs[i].line && parts[i] == rs[i].payload[..Min(wants[i], |rs[i].payload|)]
  {
    hide Decode, AfterPayload;
    var r := new Reader(j, Encode(j, rs), true);
    RoundTrip(j, rs);
    lines, parts := [], [];
    for i := 0 to |rs|
      invariant |lines| == |parts| == i
      invariant r.Valid() && r.ahead == Decoded(rs[i..], Clean)
      invariant forall k :: 0 <= k < i ==>
                  lines[k] == rs[k].line && parts[k] == rs[k].payload[..Min(wants[k], |rs[k].payload|)]
    {
      var next := r.Next();
      assert rs[i..][1..] == rs[i + 1..];
      assert next == Got(rs[i].line) && r.content == rs[i].payload;
      var part := r.Read(wants[i]);
      lines, parts := lines + [next.line], parts + [part];
    }
  }
}
