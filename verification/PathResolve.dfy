/** What a cleaned path names (internal/path/path.go), and what stepping up from it does. */
module PathResolve {
  import opened Wrappers
  import opened Path

  // ---------------------------------------------------------------- percent-encoding

  predicate IsHex(c: char) { '0' <= c <= '9' || 'a' <= c <= 'f' || 'A' <= c <= 'F' }

  function HexValue(c: char): (v: nat)
    requires IsHex(c)
    ensures v < 16
  {
    if c <= '9' then c as int - '0' as int
    else if c <= 'F' then c as int - 'A' as int + 10
    else c as int - 'a' as int + 10
  }

  /** Section 2.1 of RFC 3986: "%" and two hex digits stand for one byte. */
  function Decode(seg: string): Option<string> {
    if seg == "" then Some("")
    else if seg[0] == '%' then
      if |seg| < 3 || !IsHex(seg[1]) || !IsHex(seg[2]) then None
      else
        match Decode(seg[3..])
        case None => None
        case Some(rest) => Some([(16 * HexValue(seg[1]) + HexValue(seg[2])) as char] + rest)
    else
      match Decode(seg[1..])
      case None => None
      case Some(rest) => Some([seg[0]] + rest)
  }

  /** All segments decoded, or the first that cannot be. */
  function DecodeAll(segs: seq<string>): (r: Result<seq<string>, Error>)
    ensures r.Ok? ==> |r.value| == |segs|
    ensures r.Ok? ==> forall k :: 0 <= k < |segs| ==> Decode(segs[k]) == Some(r.value[k])
    ensures r.Err? ==> exists k :: 0 <= k < |segs| && Decode(segs[k]) == None && r.error == BadEncoding(segs[k])
  {
    if segs == [] then Ok([])
    else
      var n := |segs| - 1;
      match DecodeAll(segs[..n])
      case Err(e) => Err(e)
      case Ok(front) => if Decode(segs[n]).None? then Err(BadEncoding(segs[n])) else Ok(front + [Decode(segs[n]).value])
  }

  // ---------------------------------------------------------------- what a path names

  datatype Kind = Server | Database | Document | DesignDoc | View | Attachment | Partition | Search

  datatype Backend = NoBackend | Clouseau | Nouveau

  datatype Target = Target(
    kind: Kind, path: string, database: string, docID: string, view: string,
    index: string, backend: Backend, attachment: string, partition: string)

  function Blank(path: string, kind: Kind): Target {
    Target(kind, path, "", "", "", "", NoBackend, "", "")
  }

  /** A document in partition p1 has an id of the form "p1:<rest>". */
  function PartitionDocID(key: string, seg: string): (id: string)
    ensures key + ":" <= id
  {
    if key + ":" <= seg then seg else key + ":" + seg
  }

  function TrimPartition(key: string, id: string): string {
    if key + ":" <= id then id[|key| + 1..] else id
  }

  predicate IsIndexSeparator(s: string) { s == "_view" || s == "_search" || s == "_nouveau" }

  /** t as the index `name` under separator sep. */
  function Index(t: Target, sep: string, name: string): Target
    requires IsIndexSeparator(sep)
  {
    if sep == "_view" then t.(kind := View, view := name)
    else t.(kind := Search, index := name, backend := if sep == "_search" then Clouseau else Nouveau)
  }

  function Classify(path: string, dec: seq<string>): Result<Target, Error> {
    if dec == [] then Ok(Blank(path, Server))
    else
      var t := Blank(path, Database).(database := dec[0]);
      if |dec| == 1 then Ok(t)
      else if dec[1] == "_partition" then
        if |dec| < 3 then Err(PartitionNeedsKey) else InPartition(t.(partition := dec[2]), dec[3..])
      else if dec[1] == "_design" then
        if |dec| < 3 then Err(DesignNeedsName) else InDesign(t.(docID := "_design/" + dec[2]), dec[3..])
      else if |dec| == 2 then Ok(t.(kind := Document, docID := dec[1]))
      else if |dec| == 3 then Ok(t.(kind := Attachment, docID := dec[1], attachment := dec[2]))
      else Err(TooManySegments)
  }

  function InPartition(t: Target, rest: seq<string>): Result<Target, Error> {
    if rest == [] then Ok(t.(kind := Partition))
    else if rest[0] == "_design" then
      if |rest| < 2 then Err(DesignNeedsName)
      else if |rest| == 4 then
        if IsIndexSeparator(rest[2]) then Ok(Index(t.(docID := "_design/" + rest[1]), rest[2], rest[3])) else Err(ExpectedIndex)
      else if |rest| > 4 then Err(TooManySegments)
      else Err(NotPartitionScoped)
    else
      var d := t.(docID := PartitionDocID(t.partition, rest[0]));
      if |rest| == 1 then Ok(d.(kind := Document))
      else if |rest| == 2 then Ok(d.(kind := Attachment, attachment := rest[1]))
      else Err(TooManySegments)
  }

  function InDesign(t: Target, rest: seq<string>): Result<Target, Error> {
    if rest == [] then Ok(t.(kind := DesignDoc))
    else if |rest| == 1 then
      if IsIndexSeparator(rest[0]) then Err(IndexNeedsName) else Ok(t.(kind := Attachment, attachment := rest[0]))
    else if |rest| == 2 then
      if IsIndexSeparator(rest[0]) then Ok(Index(t, rest[0], rest[1])) else Err(ExpectedIndex)
    else Err(TooManySegments)
  }

  // ---------------------------------------------------------------- a target's own names

  /** The decoded segments that name a target. */
  function NamesOf(t: Target): seq<string> {
    var place := [t.database] + (if t.partition == "" then [] else ["_partition", t.partition]);
    var ddoc := if |t.docID| < 8 then [] else ["_design", t.docID[8..]];
    match t.kind
    case Server => []
    case Database => [t.database]
    case Partition => place
    case Document => place + [t.docID]
    case Attachment => (if "_design/" <= t.docID && t.partition == "" then [t.database] + ddoc else place + [t.docID]) + [t.attachment]
    case DesignDoc => [t.database] + ddoc
    case View => place + ddoc + ["_view", t.view]
    case Search => place + ddoc + [if t.backend == Clouseau then "_search" else "_nouveau", t.index]
  }

  /** The same names with a partition's document spelled in full. */
  function Qualified(dec: seq<string>): seq<string> {
    if |dec| > 3 && dec[1] == "_partition" && dec[3] != "_design" then dec[3 := PartitionDocID(dec[2], dec[3])] else dec
  }

  /** An attachment of a design document whose own segment was an encoded "_design/...". */
  predicate EncodedDesign(dec: seq<string>) {
    |dec| == 3 && "_design/" <= dec[1]
  }

  /** Nothing of a path is lost or mixed up in its target: the target's fields spell the
      decoded segments again, a partition's document in full, exactly unless it is that second
      spelling of a design document's attachment; and then they spell the first. */
  lemma TargetSpellsItsPath(path: string, dec: seq<string>)
    requires Classify(path, dec).Ok? && forall k :: 0 <= k < |dec| ==> dec[k] != ""
    ensures NamesOf(Classify(path, dec).value) == Qualified(dec) <==> !EncodedDesign(dec)
    ensures EncodedDesign(dec) ==> NamesOf(Classify(path, dec).value) == [dec[0], "_design", dec[1][8..], dec[2]]
  {
    if |dec| > 1 && dec[1] == "_partition" {
      PartitionSpells(path, dec);
      assert "_partition"[1] == 'p' && "_design/"[1] == 'd';
    } else if |dec| > 1 && dec[1] == "_design" {
      DesignSpells(path, dec);
      assert |"_design"| < |"_design/"|;
    } else if |dec| > 1 {
      PlainSpells(path, dec);
    } else {
      assert dec == if |dec| == 0 then [] else [dec[0]];
    }
  }

  predicate SecondIs(dec: seq<string>, word: string) { |dec| > 1 && dec[1] == word }

  /** What follows a partition's key begins a design document's name. */
  predicate DesignInside(dec: seq<string>) { SecondIs(dec, "_partition") && |dec| > 3 && dec[3] == "_design" }

  /** Which paths name something, by their length and the words in them; and why the others
      name nothing. */
  lemma WhatIsNamed(path: string, dec: seq<string>)
    ensures var r, n := Classify(path, dec), |dec|;
            var part, design := SecondIs(dec, "_partition"), SecondIs(dec, "_design");
            && (r.Ok? <==>
                if DesignInside(dec) then n == 7 && dec[5] in ["_view", "_search", "_nouveau"]
                else if part then 3 <= n <= 5
                else if design then n == 3 || (n == 4 && dec[3] !in ["_view", "_search", "_nouveau"]) || (n == 5 && dec[3] in ["_view", "_search", "_nouveau"])
                else n <= 3)
            && (r == Err(PartitionNeedsKey) <==> part && n == 2)
            && (r == Err(DesignNeedsName) <==> (design && n == 2) || (DesignInside(dec) && n == 4))
            && (r == Err(NotPartitionScoped) <==> DesignInside(dec) && n in {5, 6})
            && (r == Err(IndexNeedsName) <==> design && n == 4 && dec[3] in ["_view", "_search", "_nouveau"])
            && (r == Err(ExpectedIndex) <==>
                (design && n == 5 && dec[3] !in ["_view", "_search", "_nouveau"]) ||
                (DesignInside(dec) && n == 7 && dec[5] !in ["_view", "_search", "_nouveau"]))
            && (r == Err(TooManySegments) <==>
                if DesignInside(dec) then n > 7 else if part || design then n > 5 else n > 3)
  {
    assert forall s :: s in ["_view", "_search", "_nouveau"] <==> IsIndexSeparator(s);
  }

  /** And a target has no field that its kind does not name. */
  lemma OnlyItsOwnFields(path: string, dec: seq<string>)
    requires Classify(path, dec).Ok?
    ensures var t := Classify(path, dec).value;
            && t.path == path
            && (t.kind != View ==> t.view == "")
            && (t.kind != Search ==> t.index == "" && t.backend == NoBackend)
            && (t.kind == Search ==> t.backend != NoBackend)
            && (t.kind != Attachment ==> t.attachment == "")
            && (t.kind in {Server, Database, Partition} ==> t.docID == "")
            && (t.kind == Server ==> t.database == "")
            && (!SecondIs(dec, "_partition") ==> t.partition == "")
  {
  }

  lemma PlainSpells(path: string, dec: seq<string>)
    requires Classify(path, dec).Ok? && |dec| > 1 && dec[1] !in ["_partition", "_design"] && forall k :: 0 <= k < |dec| ==> dec[k] != ""
    ensures NamesOf(Classify(path, dec).value) ==
            if EncodedDesign(dec) then [dec[0], "_design", dec[1][8..], dec[2]] else Qualified(dec)
  {
    assert "_partition" in ["_partition", "_design"] && "_design" in ["_partition", "_design"];
    assert dec == if |dec| == 2 then [dec[0], dec[1]] else [dec[0], dec[1], dec[2]];
  }

  lemma DesignName(name: string)
    ensures ("_design/" + name)[8..] == name && |"_design/" + name| >= 8 && "_design/" <= "_design/" + name
  {
  }

  lemma DesignSpells(path: string, dec: seq<string>)
    requires Classify(path, dec).Ok? && |dec| > 1 && dec[1] == "_design"
    ensures NamesOf(Classify(path, dec).value) == Qualified(dec)
  {
    DesignName(dec[2]);
    var t := Classify(path, dec).value;
    if |dec| == 3 {
      assert dec == [dec[0], dec[1], dec[2]];
    } else if |dec| == 4 {
      assert dec == [dec[0], dec[1], dec[2], dec[3]];
    } else {
      assert dec == [dec[0], dec[1], dec[2], dec[3], dec[4]];
    }
  }

  lemma PartitionSpells(path: string, dec: seq<string>)
    requires Classify(path, dec).Ok? && |dec| > 1 && dec[1] == "_partition" && forall k :: 0 <= k < |dec| ==> dec[k] != ""
    ensures NamesOf(Classify(path, dec).value) == Qualified(dec)
  {
    var t := Classify(path, dec).value;
    if |dec| == 3 {
      assert dec == [dec[0], dec[1], dec[2]];
    } else if dec[3] != "_design" {
      assert Qualified(dec)[..4] == [dec[0], dec[1], dec[2], PartitionDocID(dec[2], dec[3])];
      assert dec == dec[..4] + dec[4..];
    } else {
      DesignName(dec[4]);
      assert dec == [dec[0], dec[1], dec[2], dec[3], dec[4], dec[5], dec[6]];
    }
  }

  function Resolve(base: string, input: string): Result<Target, Error> {
    match Cleaned(base, input)
    case Err(e) => Err(e)
    case Ok(clean) =>
      match DecodeAll(Split(clean))
      case Err(e) => Err(e)
      case Ok(dec) => Classify(clean, dec)
  }

  // ---------------------------------------------------------------- canonical paths

  /** No step is left to take in it. */
  predicate Names(segs: seq<string>) {
    forall k :: 0 <= k < |segs| ==> segs[k] != "." && segs[k] != ".."
  }

  predicate Canonical(p: string) { GoodBase(p) && Names(Split(p)) }

  lemma {:induction false} WalkKeepsNames(w: Walk, steps: seq<string>)
    requires Names(w.segs)
    ensures Names(Walked(w, steps).segs) && Names(Landed(Walked(w, steps)))
  {
    if steps != [] {
      WalkKeepsNames(w, steps[..|steps| - 1]);
    }
  }

  lemma {:induction false} NamesAreWalked(segs: seq<string>)
    requires Names(segs)
    ensures Walked(Walk([], 0), segs) == Walk(segs, 0)
  {
    if segs != [] {
      NamesAreWalked(segs[..|segs| - 1]);
      assert segs == segs[..|segs| - 1] + [segs[|segs| - 1]];
    }
  }

  /** Cleaning against a canonical base gives a canonical path, in segments. */
  lemma CleanIsCanonical(base: string, input: string) returns (segs: seq<string>)
    requires Canonical(base)
    ensures Segments(segs) && Names(segs) && Cleaned(base, input) == Ok(Join(segs)) && Split(Join(segs)) == segs
    ensures segs == Landed(WalkOf(base, input))
  {
    segs := Landed(WalkOf(base, input));
    SplitSegments(base);
    SplitSegments(input);
    WalkedSegments(Start(base, input), Split(input));
    WalkKeepsNames(Start(base, input), Split(input));
    SplitJoin(segs);
    hide Walked, Split, Join;
  }

  /** Cleaning a canonical path again, from anywhere, changes nothing. */
  lemma CleanAgain(base: string, segs: seq<string>)
    requires GoodBase(base) && Segments(segs) && Names(segs)
    ensures Cleaned(base, Join(segs)) == Ok(Join(segs))
  {
    JoinAbsolute(segs);
    SplitJoin(segs);
    NamesAreWalked(segs);
    hide Walked, Split, Join;
  }

  /** Every target is named by its own path: resolving that path, from any directory, gives
      the same target. */
  lemma ResolveIsStable(base: string, input: string, other: string)
    requires Canonical(base) && GoodBase(other) && Resolve(base, input).Ok?
    ensures Resolve(other, Resolve(base, input).value.path) == Resolve(base, input)
  {
    hide Walked, Split, Join, DecodeAll;
    var segs := CleanIsCanonical(base, input);
    CleanAgain(other, segs);
    PathIsKept(Join(segs), DecodeAll(Split(Join(segs))).value);
  }

  lemma PathIsKept(path: string, dec: seq<string>)
    requires Classify(path, dec).Ok?
    ensures Classify(path, dec).value.path == path
  {
  }

  // ---------------------------------------------------------------- stepping up

  /** Targets whose parent is a bare separator, which names nothing. */
  predicate Stranded(t: Target, segs: seq<string>) {
    || t.kind in {DesignDoc, View, Search}
    || (t.kind == Partition && |segs| > 1 && segs[1] != "_partition")
  }

  lemma ParentClassified(segs: seq<string>, dec: seq<string>, path: string, up: string)
    requires |dec| == |segs| && Classify(path, dec).Ok?
    requires forall k :: 0 <= k < |segs| ==> Decode(segs[k]) == Some(dec[k])
    ensures var t := Classify(path, dec).value;
            var parent := dec[..|Collapse(Drop(segs))|];
            Classify(up, parent).Ok? <==> !Stranded(t, segs)
  {
    var parent := dec[..|Collapse(Drop(segs))|];
    assert Decode("_partition") == Some("_partition") by {
      PlainDecodes("_partition");
    }
    hide Decode;
    if |dec| > 3 {
      assert dec[..|dec| - 1][3..] == dec[3..][..|dec[3..]| - 1];
    }
  }

  lemma {:induction false} PlainDecodes(s: string)
    requires '%' !in s
    ensures Decode(s) == Some(s)
  {
    if s != "" {
      assert s[0] in s;
      PlainDecodes(s[1..]);
      assert s == [s[0]] + s[1..];
    }
  }

  lemma {:induction false} DecodePrefix(segs: seq<string>, n: nat)
    requires n <= |segs| && DecodeAll(segs).Ok?
    ensures DecodeAll(segs[..n]) == Ok(DecodeAll(segs).value[..n])
  {
    if n < |segs| {
      DecodePrefix(segs[..|segs| - 1], n);
      var all, front := DecodeAll(segs).value, DecodeAll(segs[..|segs| - 1]).value;
      assert segs[..|segs| - 1][..n] == segs[..n];
      assert all[..|segs| - 1] == front && all[..n] == front[..n];
    } else {
      assert segs[..n] == segs && DecodeAll(segs).value[..n] == DecodeAll(segs).value;
    }
  }

  lemma StepUpWalks(segs: seq<string>)
    requires Segments(segs) && Names(segs)
    ensures Cleaned(Join(segs), "..") == Ok(Join(Collapse(Drop(segs))))
    ensures Split(Join(Collapse(Drop(segs)))) == Collapse(Drop(segs))
  {
    SplitJoin(segs);
    SplitJoin(Collapse(Drop(segs)));
    JoinAbsolute(segs);
    SplitSegment("..");
    WalkedOne(Walk(segs, 0), "..");
    hide Walked, Split, Join;
  }

  /** "cd .." from a target lands on one, exactly when its parent is not a bare separator:
      a design document, a view or a search index leaves "_design", "_view", "_search" or
      "_nouveau" behind, and a partition whose separator was typed percent-encoded leaves
      that, because only the plain spelling collapses. */
  lemma StepUpResolves(base: string, input: string)
    requires Canonical(base) && Resolve(base, input).Ok?
    ensures var t := Resolve(base, input).value;
            Resolve(t.path, "..").Ok? <==> !Stranded(t, Split(t.path))
  {
    hide Walked, Split, Join, DecodeAll, Decode;
    var segs := CleanIsCanonical(base, input);
    var dec := DecodeAll(segs).value;
    PathIsKept(Join(segs), dec);
    StepUpWalks(segs);
    var up := Collapse(Drop(segs));
    assert up == segs[..|up|];
    DecodePrefix(segs, |up|);
    ParentClassified(segs, dec, Join(segs), Join(up));
    hide Classify, Stranded;
  }

  // ---------------------------------------------------------------- partition ids

  /** The short and the qualified spelling name one document, and qualifying is done once. */
  lemma QualifiedOnce(key: string, seg: string)
    ensures PartitionDocID(key, PartitionDocID(key, seg)) == PartitionDocID(key, seg)
    ensures PartitionDocID(key, key + ":" + seg) == key + ":" + seg
    ensures !(key + ":" <= seg) ==> PartitionDocID(key, seg) == PartitionDocID(key, key + ":" + seg)
  {
    assert (key + ":" + seg)[..|key| + 1] == key + ":";
  }

  /** Showing an id short and typing it again gives the id back, unless it is not of the
      partition, or its short form looks qualified itself. */
  lemma ShortFormReturns(key: string, id: string)
    ensures PartitionDocID(key, TrimPartition(key, id)) == id <==>
            (key + ":" <= id && !(key + ":" <= TrimPartition(key, id)))
  {
    var p := key + ":";
    if p <= id {
      assert id == p + id[|p|..];
      if p <= id[|p|..] {
        assert |id[|p|..]| < |id|;
      }
    }
  }

  // ---------------------------------------------------------------- encoding

  const UPPER_DIGITS := "0123456789ABCDEF"
  const LOWER_DIGITS := "0123456789abcdef"

  /** The bytes url.PathEscape leaves as they are: letters, digits and some marks. */
  predicate StaysPlain(c: char) {
    'a' <= c <= 'z' || 'A' <= c <= 'Z' || '0' <= c <= '9' || c in "-_.~$&+:=@"
  }

  /** They are, by their codes, the digits, the letters and ten marks; a byte beyond ASCII is
      none of them. */
  lemma PlainBytes(c: char)
    ensures StaysPlain(c) <==>
            || 48 <= c as int <= 57 || 65 <= c as int <= 90 || 97 <= c as int <= 122
            || c as int in {36, 38, 43, 45, 46, 58, 61, 64, 95, 126}
  {
  }

  predicate AreBytes(s: string) { forall k :: 0 <= k < |s| ==> s[k] as int < 256 }

  /** One byte, percent-encoded: the high digit first (section 2.1 of RFC 3986). */
  function Escaped(c: char): string
    requires c as int < 256
  {
    ['%', UPPER_DIGITS[c as int / 16], UPPER_DIGITS[c as int % 16]]
  }

  /** Encode, so a name survives as one path segment. */
  function Encode(name: string): string
    requires AreBytes(name)
  {
    if name == "" then ""
    else (if StaysPlain(name[0]) then [name[0]] else Escaped(name[0])) + Encode(name[1..])
  }

  /** Each digit has its value, in either case. */
  lemma DigitsHaveTheirValue(v: nat)
    requires v < 16
    ensures IsHex(UPPER_DIGITS[v]) && HexValue(UPPER_DIGITS[v]) == v
    ensures IsHex(LOWER_DIGITS[v]) && HexValue(LOWER_DIGITS[v]) == v
  {
  }

  /** And nothing else is one. */
  lemma OnlyDigits(c: char)
    ensures IsHex(c) <==> c in UPPER_DIGITS || c in LOWER_DIGITS
  {
    if IsHex(c) {
      var v := HexValue(c);
      assert c == UPPER_DIGITS[v] || c == LOWER_DIGITS[v];
    } else {
      forall k | 0 <= k < 16
        ensures UPPER_DIGITS[k] != c && LOWER_DIGITS[k] != c
      {
        DigitsHaveTheirValue(k);
      }
    }
  }

  predicate IsDigitFor(c: char, v: nat)
    requires v < 16
  {
    c == UPPER_DIGITS[v] || c == LOWER_DIGITS[v]
  }

  lemma DigitValue(c: char, v: nat)
    requires v < 16 && IsDigitFor(c, v)
    ensures IsHex(c) && HexValue(c) == v
  {
    DigitsHaveTheirValue(v);
    hide IsHex, HexValue;
  }

  /** Upper and lower case digits decode alike, the first being the high one. */
  lemma EscapeDecodes(a: char, b: char, high: nat, low: nat, rest: string)
    requires high < 16 && low < 16 && IsDigitFor(a, high) && IsDigitFor(b, low)
    ensures Decode(['%', a, b] + rest) == if Decode(rest).None? then None else Some([(16 * high + low) as char] + Decode(rest).value)
  {
    hide Decode, IsHex, HexValue, UPPER_DIGITS, LOWER_DIGITS, IsDigitFor;
    DigitValue(a, high);
    DigitValue(b, low);
    DecodePair(a, b, rest);
  }

  lemma DecodePair(a: char, b: char, rest: string)
    requires IsHex(a) && IsHex(b)
    ensures Decode(['%', a, b] + rest) ==
            if Decode(rest).None? then None else Some([(16 * HexValue(a) + HexValue(b)) as char] + Decode(rest).value)
  {
    hide IsHex, HexValue;
    assert (['%', a, b] + rest)[3..] == rest;
  }

  /** A "%" without two digits behind it cannot be decoded. */
  lemma BadEscapes(front: string, rest: string)
    requires '%' !in front && (|rest| < 2 || !IsHex(rest[0]) || !IsHex(rest[1]))
    ensures Decode(front + "%" + rest) == None
    decreases front
  {
    var all := front + "%" + rest;
    if front == "" {
      assert all == "%" + rest;
    } else {
      assert front[0] in front && all[1..] == front[1..] + "%" + rest;
      BadEscapes(front[1..], rest);
    }
  }

  /** Decode reverses Encode. */
  lemma {:induction false} DecodeEncode(name: string)
    requires AreBytes(name)
    ensures Decode(Encode(name)) == Some(name)
  {
    if name != "" {
      var c, rest := name[0], Encode(name[1..]);
      DecodeEncode(name[1..]);
      if StaysPlain(c) {
        assert ([c] + rest)[1..] == rest;
      } else {
        EscapeDecodes(UPPER_DIGITS[c as int / 16], UPPER_DIGITS[c as int % 16], c as int / 16, c as int % 16, rest);
      }
      assert [c] + name[1..] == name;
      hide Decode;
    }
  }

  /** An encoded name is one segment: not empty unless the name is, and without a slash. */
  lemma {:induction false} EncodedIsSegment(name: string)
    requires AreBytes(name)
    ensures '/' !in Encode(name) && (Encode(name) == "" <==> name == "")
  {
    if name != "" {
      EncodedIsSegment(name[1..]);
      forall v: nat | v < 16
        ensures UPPER_DIGITS[v] != '/'
      {
        DigitsHaveTheirValue(v);
      }
    }
  }

  /** Encoding spares dots, so only these two names are read as steps. */
  lemma EncodedSteps(name: string, step: string)
    requires AreBytes(name) && step in [".", ".."]
    ensures Encode(name) == step <==> name == step
  {
    assert step == "." || step == "..";
    if Encode(name) == step {
      DecodeEncode(name);
      PlainDecodes(step);
    }
    hide Decode;
    DotsStay();
  }

  lemma DotsStay()
    ensures Encode("") == "" && Encode(".") == "." && Encode("..") == ".."
  {
    assert "."[1..] == "" && ".."[1..] == ".";
    assert ['.'] + "" == "." && ['.'] + "." == "..";
  }

  /** The path of a document by its names, each encoded, resolves from anywhere to that
      document - exactly unless a name is "." or "..", or the id is one of the two words that
      begin another kind of path. */
  lemma EncodedNamesResolve(base: string, db: string, id: string)
    requires GoodBase(base) && AreBytes(db) && AreBytes(id) && db != "" && id != ""
    ensures var path := "/" + Encode(db) + "/" + Encode(id);
            Resolve(base, path) == Ok(Blank(path, Document).(database := db, docID := id)) <==>
            db !in [".", ".."] && id !in [".", "..", "_partition", "_design"]
  {
    EncodedIsSegment(db);
    EncodedIsSegment(id);
    var d, i := Encode(db), Encode(id);
    EncodedSteps(db, ".");
    EncodedSteps(db, "..");
    EncodedSteps(id, ".");
    EncodedSteps(id, "..");
    hide Encode, Decode, DecodeAll, Classify, Split, Walked, Join, Cleaned;
    var segs := TwoSteps(base, d, i);
    assert forall name :: name in [".", ".."] <==> name == "." || name == "..";
    if db !in [".", ".."] && id !in [".", ".."] {
      JoinTwo(d, i);
      SplitJoin([d, i]);
      DecodeTwo(db, id);
      PlainDocument("/" + d + "/" + i, db, id);
    } else {
      FewerNames(segs, "/" + d + "/" + i, base, db, id);
    }
    hide Resolve;
    assert id in [".", "..", "_partition", "_design"] <==> id in [".", ".."] || id in ["_partition", "_design"];
  }

  lemma JoinTwo(d: string, i: string)
    ensures Join([d, i]) == "/" + d + "/" + i
  {
    assert [d, i][..1] == [d];
    assert "" + "/" + d == "/" + d;
  }

  predicate IsStep(s: string) { s == "." || s == ".." }

  /** Where two typed segments land. */
  lemma TwoSteps(base: string, d: string, i: string) returns (segs: seq<string>)
    requires GoodBase(base) && IsSegment(d) && IsSegment(i)
    ensures Cleaned(base, "/" + d + "/" + i) == Ok(Join(segs)) && Segments(segs)
    ensures segs == if IsStep(d) then (if IsStep(i) then [] else [i]) else if i == "." then [d] else if i == ".." then [] else [d, i]
  {
    var p := "/" + d + "/" + i;
    hide Split, Walked, Landed, Cleaned, Join, IsStep, Segments, IsSegment;
    SplitTwo(d, i);
    assert p[0] == '/';
    CleanedWalk(base, p);
    WalkTwo(d, i);
    segs := Landed(Walked(Walk([], 0), [d, i]));
    FewSegments(d, i, segs);
  }

  lemma CleanedWalk(base: string, p: string)
    requires GoodBase(base) && Absolute(p)
    ensures Cleaned(base, p) == Ok(Join(Landed(Walked(Walk([], 0), Split(p)))))
  {
  }

  lemma FewSegments(d: string, i: string, segs: seq<string>)
    requires IsSegment(d) && IsSegment(i) && segs in [[], [d], [i], [d, i]]
    ensures Segments(segs)
  {
    assert segs == [] || segs == [d] || segs == [i] || segs == [d, i];
  }

  lemma SplitTwo(d: string, i: string)
    requires IsSegment(d) && IsSegment(i)
    ensures Split("/" + d + "/" + i) == [d, i]
  {
    SplitEmpty();
    SplitAt("", d);
    SplitAt("/" + d, i);
    SplitSegment(d);
    SplitSegment(i);
    hide Split;
    assert "" + "/" + d == "/" + d && [] + [d] == [d] && [d] + [i] == [d, i];
  }

  lemma WalkTwo(d: string, i: string)
    ensures Landed(Walked(Walk([], 0), [d, i])) ==
            if IsStep(d) then (if IsStep(i) then [] else [i]) else if i == "." then [d] else if i == ".." then [] else [d, i]
  {
    WalkedNone(Walk([], 0));
    WalkedSnoc(Walk([], 0), [d, i], 0);
    WalkedSnoc(Walk([], 0), [d, i], 1);
    assert [d, i][..0] == [] && [d, i][..2] == [d, i];
    hide Walked;
    FirstStep(d);
    SecondStep(Step(Walk([], 0), d), i);
    hide Step, Landed;
    assert [d] + [i] == [d, i] && [] + [i] == [i];
  }

  lemma FirstStep(d: string)
    ensures var w := Step(Walk([], 0), d); w.pops <= 1 && w.segs == if d == "." || d == ".." then [] else [d]
    ensures Step(Walk([], 0), d).pops > 0 ==> d == ".."
  {
    assert [] + [d] == [d];
  }

  lemma SecondStep(w: Walk, i: string)
    requires |w.segs| < 2 && w.pops <= 1 && (w.pops > 0 ==> w.segs == [])
    ensures Landed(Step(w, i)) == if i == "." then w.segs else if i == ".." then [] else w.segs + [i]
  {
  }

  /** Segments that each decode all decode. */
  lemma DecodesTo(segs: seq<string>, dec: seq<string>)
    requires |segs| == |dec| && forall k :: 0 <= k < |segs| ==> Decode(segs[k]) == Some(dec[k])
    ensures DecodeAll(segs) == Ok(dec)
  {
    hide Decode, DecodeAll;
    var r := DecodeAll(segs);
    if r.Ok? {
      assert forall k :: 0 <= k < |dec| ==> Decode(segs[k]) == Some(dec[k]) && r.value[k] == dec[k];
      assert r.value == dec;
    }
  }

  lemma DecodeTwo(db: string, id: string)
    requires AreBytes(db) && AreBytes(id)
    ensures DecodeAll([Encode(db), Encode(id)]) == Ok([db, id])
  {
    DecodeEncode(db);
    DecodeEncode(id);
    hide Encode, Decode, DecodeAll;
    DecodesTo([Encode(db), Encode(id)], [db, id]);
  }

  lemma PlainDocument(path: string, db: string, id: string)
    ensures Classify(path, [db, id]) == Ok(Blank(path, Document).(database := db, docID := id)) <==> id !in ["_partition", "_design"]
  {
    assert id in ["_partition", "_design"] <==> id == "_partition" || id == "_design";
  }

  lemma FewerNames(segs: seq<string>, input: string, base: string, db: string, id: string)
    requires |segs| < 2 && Segments(segs) && Cleaned(base, input) == Ok(Join(segs))
    ensures forall path :: Resolve(base, input) != Ok(Blank(path, Document).(database := db, docID := id))
  {
    SplitJoin(segs);
    hide Split, Decode;
  }
}
