/** What restoring a dump must write (internal/command/restore.go): documents with their
    attachments, and which attachment travels inside its document.  Everything here looks at
    one document at a time; Restore shows that the batching command agrees. */
module RestoreRule {
  import opened Wrappers
  import opened DumpContent
  import opened DumpFormat

  const INLINE_LIMIT := 4 * 1024 * 1024
  const BATCH_BYTES := 16 * 1024 * 1024

  /** base64.StdEncoding.EncodedLen (section 4 of RFC 4648). */
  function EncodedLen(n: nat): nat {
    (n + 2) / 3 * 4
  }

  /** The _attachments entry a small attachment becomes. */
  datatype Entry = Entry(contentType: string, data: Bytes)

  /** A document as it is written, with the sizes kept for the batch totals. */
  datatype Outgoing = Outgoing(
    body: Bytes,
    inlined: map<string, Entry>,
    uploads: seq<Record>,
    inlineBytes: nat,
    bytes: nat)

  predicate FitsInline(p: Outgoing, length: nat) {
    length <= INLINE_LIMIT && p.inlineBytes + EncodedLen(length) <= BATCH_BYTES
  }

  function Plain(body: Bytes): Outgoing {
    Outgoing(body, map[], [], 0, |body|)
  }

  /** The one-document rule. */
  function Attach(p: Outgoing, a: Record): Outgoing
    requires a.line.Att? && 0 <= a.line.length
  {
    var n := a.line.length;
    if FitsInline(p, n) then
      p.(inlined := p.inlined[a.line.name := Entry(a.line.contentType, a.payload)],
         inlineBytes := p.inlineBytes + EncodedLen(n), bytes := p.bytes + EncodedLen(n))
    else
      p.(uploads := p.uploads + [a], bytes := p.bytes + n)
  }

  /** A record that may stand after the records rs: an attachment must follow its own
      document, which is no deletion, and bring the payload it declares. */
  predicate InPlace(j: Json, rs: seq<Record>, r: Record) {
    r.line.Att? ==>
      && LastDoc(rs).Some?
      && j.idOf(LastDoc(rs).value) == r.line.id && j.revOf(LastDoc(rs).value) == r.line.rev
      && !j.isTombstone(LastDoc(rs).value)
      && r.line.length == |r.payload|
  }

  function LastDoc(rs: seq<Record>): Option<Bytes> {
    if rs == [] then None
    else if rs[|rs| - 1].line.Doc? then Some(rs[|rs| - 1].line.body)
    else LastDoc(rs[..|rs| - 1])
  }

  predicate Ordered(j: Json, rs: seq<Record>) {
    forall i :: 0 <= i < |rs| ==> InPlace(j, rs[..i], rs[i])
  }

  /** The documents ds after one more attachment to the last of them. */
  function WithLast(ds: seq<Outgoing>, rec: Record): seq<Outgoing>
    requires rec.line.Att? && 0 <= rec.line.length
  {
    if ds == [] then [] else ds[..|ds| - 1] + [Attach(ds[|ds| - 1], rec)]
  }

  /** The documents ds after one more record. */
  function Extend(ds: seq<Outgoing>, rec: Record): seq<Outgoing>
    requires rec.line.Att? ==> 0 <= rec.line.length
  {
    match rec.line
    case Doc(body) => ds + [Plain(body)]
    case Att(_, _, _, _, _) => WithLast(ds, rec)
    case _ => ds
  }

  /** The documents some records hold, each with the attachments that follow it. */
  function Documents(j: Json, rs: seq<Record>): (ds: seq<Outgoing>)
    requires Ordered(j, rs)
    ensures LastDoc(rs).Some? <==> ds != []
    ensures ds != [] ==> LastDoc(rs).value == ds[|ds| - 1].body
  {
    if rs == [] then [] else
      OrderedFront(j, rs);
      Extend(Documents(j, rs[..|rs| - 1]), rs[|rs| - 1])
  }

  lemma OrderedFront(j: Json, rs: seq<Record>)
    requires Ordered(j, rs) && rs != []
    ensures Ordered(j, rs[..|rs| - 1]) && InPlace(j, rs[..|rs| - 1], rs[|rs| - 1])
  {
    var front := rs[..|rs| - 1];
    forall i | 0 <= i < |front|
      ensures InPlace(j, front[..i], front[i])
    {
      assert front[..i] == rs[..i];
    }
  }

  lemma OrderedSnoc(j: Json, rs: seq<Record>, r: Record)
    requires Ordered(j, rs)
    ensures Ordered(j, rs + [r]) <==> InPlace(j, rs, r)
  {
    var all := rs + [r];
    assert all[..|rs|] == rs;
    forall i | 0 <= i < |rs|
      ensures all[..i] == rs[..i]
    {
    }
    if InPlace(j, rs, r) {
      forall i | 0 <= i < |all|
        ensures InPlace(j, all[..i], all[i])
      {
      }
    }
  }

  lemma LastDocSnoc(rs: seq<Record>, r: Record)
    ensures LastDoc(rs + [r]) == if r.line.Doc? then Some(r.line.body) else LastDoc(rs)
  {
    assert (rs + [r])[..|rs|] == rs;
  }

  lemma DocumentsSnoc(j: Json, rs: seq<Record>, rec: Record)
    requires Ordered(j, rs) && InPlace(j, rs, rec)
    ensures Ordered(j, rs + [rec])
    ensures Documents(j, rs + [rec]) == Extend(Documents(j, rs), rec)
  {
    var all := rs + [rec];
    OrderedSnoc(j, rs, rec);
    assert all[..|rs|] == rs;
  }

  // ---------------------------------------------------------------- the order, record by record

  /** Record i is an attachment of the document at d, the last document before it. */
  predicate Follows(rs: seq<Record>, d: nat, i: nat) {
    d < i < |rs| && rs[d].line.Doc? && forall k :: d < k < i ==> !rs[k].line.Doc?
  }

  /** What restore asks of an attachment record: that the last document before it is there, is
      the one it names by id and revision, is no deletion, and that its payload is all there. */
  predicate Belongs(j: Json, rs: seq<Record>, d: nat, i: nat) {
    && Follows(rs, d, i)
    && rs[i].line.Att? && rs[i].line.id == j.idOf(rs[d].line.body) && rs[i].line.rev == j.revOf(rs[d].line.body)
    && !j.isTombstone(rs[d].line.body)
    && rs[i].line.length == |rs[i].payload|
  }

  predicate LastDocAt(rs: seq<Record>, n: nat, d: nat) {
    d < n <= |rs| && rs[d].line.Doc? && forall k :: d < k < n ==> !rs[k].line.Doc?
  }

  lemma {:induction false} LastDocIs(rs: seq<Record>, n: nat)
    requires n <= |rs|
    ensures forall d: nat :: LastDocAt(rs, n, d) ==> LastDoc(rs[..n]) == Some(rs[d].line.body)
    ensures LastDoc(rs[..n]).Some? ==> exists d: nat :: LastDocAt(rs, n, d)
  {
    if n > 0 {
      LastDocIs(rs, n - 1);
      assert rs[..n][..n - 1] == rs[..n - 1];
      if rs[n - 1].line.Doc? {
        assert LastDocAt(rs, n, n - 1);
      } else {
        assert forall d: nat :: LastDocAt(rs, n, d) ==> LastDocAt(rs, n - 1, d);
        if LastDoc(rs[..n]).Some? {
          var d: nat :| LastDocAt(rs, n - 1, d);
          assert LastDocAt(rs, n, d);
        }
      }
    }
  }

  /** The records of a dump are in order exactly when every attachment so belongs to a
      document. */
  lemma OrderedIff(j: Json, rs: seq<Record>)
    ensures Ordered(j, rs) <==> forall i: nat :: i < |rs| && rs[i].line.Att? ==> exists d: nat :: Belongs(j, rs, d, i)
  {
    forall i: nat | i < |rs| && rs[i].line.Att?
      ensures InPlace(j, rs[..i], rs[i]) <==> exists d: nat :: Belongs(j, rs, d, i)
    {
      InPlaceIff(j, rs, i);
    }
  }

  lemma InPlaceIff(j: Json, rs: seq<Record>, i: nat)
    requires i < |rs| && rs[i].line.Att?
    ensures InPlace(j, rs[..i], rs[i]) <==> exists d: nat :: Belongs(j, rs, d, i)
  {
    LastDocIs(rs, i);
    hide LastDoc;
    if LastDoc(rs[..i]).Some? {
      var d: nat :| LastDocAt(rs, i, d);
      assert InPlace(j, rs[..i], rs[i]) ==> Belongs(j, rs, d, i);
    }
    if d: nat :| Belongs(j, rs, d, i) {
      assert LastDocAt(rs, i, d);
    }
  }

  /** base64 takes four characters for every three bytes, the last three perhaps not full. */
  lemma EncodedLenIs(n: nat)
    ensures EncodedLen(n) % 4 == 0 && 3 * EncodedLen(n) >= 4 * n && (n > 0 ==> 3 * (EncodedLen(n) - 4) < 4 * n) && EncodedLen(0) == 0
  {
  }

  // ---------------------------------------------------------------- consequences of the rule

  predicate Attachments(atts: seq<Record>) {
    forall a :: a in atts ==> a.line.Att? && a.line.length == |a.payload|
  }

  /** One document's attachments, in order, under the rule. */
  function AttachAll(p: Outgoing, atts: seq<Record>): Outgoing
    requires Attachments(atts)
  {
    if atts == [] then p else Attach(AttachAll(p, atts[..|atts| - 1]), atts[|atts| - 1])
  }

  /** Which of them the rule inlines. */
  predicate InlinedAt(body: Bytes, atts: seq<Record>, i: nat)
    requires i < |atts| && Attachments(atts)
  {
    FitsInline(AttachAll(Plain(body), atts[..i]), |atts[i].payload|)
  }

  /** The base64 of those among the first n that go inside. */
  function InsideLength(body: Bytes, atts: seq<Record>, n: nat): nat
    requires n <= |atts| && Attachments(atts)
  {
    if n == 0 then 0
    else InsideLength(body, atts, n - 1) + if InlinedAt(body, atts, n - 1) then EncodedLen(|atts[n - 1].payload|) else 0
  }

  /** An attachment goes inside exactly when it is at most 4 MiB and its base64 fits in 16 MiB
      beside that of those before it which do. */
  lemma {:induction false} InsideIff(body: Bytes, atts: seq<Record>, i: nat)
    requires Attachments(atts) && i < |atts|
    ensures InlinedAt(body, atts, i) <==>
            |atts[i].payload| <= 4 * 1024 * 1024 && InsideLength(body, atts, i) + EncodedLen(|atts[i].payload|) <= 16 * 1024 * 1024
  {
    InsideIs(body, atts, i);
  }

  lemma {:induction false} InsideIs(body: Bytes, atts: seq<Record>, n: nat)
    requires Attachments(atts) && n <= |atts|
    ensures AttachAll(Plain(body), atts[..n]).inlineBytes == InsideLength(body, atts, n)
  {
    hide EncodedLen;
    if n > 0 {
      InsideIs(body, atts, n - 1);
      assert atts[..n][..n - 1] == atts[..n - 1] && atts[..n][n - 1] == atts[n - 1];
    }
  }

  /** No two attachments of the document share a name. */
  predicate NoClash(atts: seq<Record>)
    requires Attachments(atts)
  {
    forall i, k :: 0 <= i < k < |atts| ==> atts[i].line.name != atts[k].line.name
  }

  function EntryOf(a: Record): Entry
    requires a.line.Att?
  {
    Entry(a.line.contentType, a.payload)
  }

  /** The attachments of a document once these have been uploaded to it, in order. */
  function Overlaid(inside: map<string, Entry>, uploads: seq<Record>): map<string, Entry>
    requires Attachments(uploads)
  {
    if uploads == [] then inside
    else
      var n := |uploads| - 1;
      Overlaid(inside, uploads[..n])[uploads[n].line.name := EntryOf(uploads[n])]
  }

  /** What the document holds in the end: what it carries inside, and the uploads over that. */
  function Held(p: Outgoing): map<string, Entry>
    requires Attachments(p.uploads)
  {
    Overlaid(p.inlined, p.uploads)
  }

  /** The document ends up with attachment a, and it travels where it should: inside or as
      an upload. */
  predicate Carries(p: Outgoing, a: Record, inside: bool)
    requires a.line.Att? && Attachments(p.uploads)
  {
    && a.line.name in Held(p) && Held(p)[a.line.name] == EntryOf(a)
    && if inside then a.line.name in p.inlined && p.inlined[a.line.name] == EntryOf(a) else a in p.uploads
  }

  function Names(atts: seq<Record>): set<string>
    requires Attachments(atts)
  {
    set a | a in atts :: a.line.name
  }

  /** The attachments the rule spills, in order. */
  function Spilled(body: Bytes, atts: seq<Record>): (us: seq<Record>)
    requires Attachments(atts)
    ensures Attachments(us)
  {
    if atts == [] then []
    else
      var n := |atts| - 1;
      Spilled(body, atts[..n]) + if InlinedAt(body, atts, n) then [] else [atts[n]]
  }

  /** The document ends up with each of its attachments exactly once, each having gone where
      the rule says, and with nothing else. */
  predicate CarriesAll(p: Outgoing, body: Bytes, atts: seq<Record>)
    requires Attachments(atts)
  {
    && p.body == body && p.uploads == Spilled(body, atts)
    && |Held(p)| == |atts| && Held(p).Keys == Names(atts)
    && EachCarried(p, body, atts)
  }

  predicate EachCarried(p: Outgoing, body: Bytes, atts: seq<Record>)
    requires Attachments(atts) && Attachments(p.uploads)
  {
    forall i :: 0 <= i < |atts| ==> Carries(p, atts[i], InlinedAt(body, atts, i))
  }

  lemma FrontInlines(body: Bytes, atts: seq<Record>, i: nat)
    requires Attachments(atts) && i < |atts| - 1
    ensures var front := atts[..|atts| - 1];
            Attachments(front) && front[i] == atts[i] && InlinedAt(body, front, i) == InlinedAt(body, atts, i)
  {
    assert atts[..|atts| - 1][..i] == atts[..i];
  }

  lemma {:induction false} UploadsAreSpilled(body: Bytes, atts: seq<Record>)
    requires Attachments(atts)
    ensures var p := AttachAll(Plain(body), atts); p.body == body && p.uploads == Spilled(body, atts)
  {
    if atts != [] {
      UploadsAreSpilled(body, atts[..|atts| - 1]);
      hide EncodedLen;
    }
  }

  // ---------------------------------------------------------------- what a document ends up with

  lemma NamesSnoc(atts: seq<Record>, a: Record)
    requires Attachments(atts + [a])
    ensures Attachments(atts) && a.line.Att? && Names(atts + [a]) == Names(atts) + {a.line.name}
  {
    var all := atts + [a];
    assert a in all;
    assert forall x :: x in all <==> x in atts || x == a;
  }

  lemma OverlaidSnoc(inside: map<string, Entry>, uploads: seq<Record>, a: Record)
    requires Attachments(uploads) && a.line.Att? && a.line.length == |a.payload|
    ensures Attachments(uploads + [a])
    ensures Overlaid(inside, uploads + [a]) == Overlaid(inside, uploads)[a.line.name := EntryOf(a)]
  {
    assert (uploads + [a])[..|uploads|] == uploads;
  }

  lemma {:induction false} OverlaidKeys(inside: map<string, Entry>, uploads: seq<Record>)
    requires Attachments(uploads)
    ensures Overlaid(inside, uploads).Keys == inside.Keys + Names(uploads)
  {
    if uploads != [] {
      var front, a := uploads[..|uploads| - 1], uploads[|uploads| - 1];
      assert uploads == front + [a];
      OverlaidKeys(inside, front);
      NamesSnoc(front, a);
    }
  }

  /** An entry no upload replaces might as well be added last. */
  lemma {:induction false} OverlaidInside(inside: map<string, Entry>, uploads: seq<Record>, n: string, e: Entry)
    requires Attachments(uploads) && n !in Names(uploads)
    ensures Overlaid(inside[n := e], uploads) == Overlaid(inside, uploads)[n := e]
  {
    if uploads != [] {
      var front, a := uploads[..|uploads| - 1], uploads[|uploads| - 1];
      assert uploads == front + [a];
      NamesSnoc(front, a);
      OverlaidInside(inside, front, n, e);
    }
  }

  /** One attachment more. */
  lemma HeldSnoc(p: Outgoing, a: Record)
    requires Attachments(p.uploads) && a.line.Att? && a.line.length == |a.payload|
    ensures Attachments(Attach(p, a).uploads)
    ensures Held(Attach(p, a)).Keys == Held(p).Keys + {a.line.name}
    ensures a.line.name !in Held(p) ==> Held(Attach(p, a)) == Held(p)[a.line.name := EntryOf(a)]
  {
    hide EncodedLen, Names;
    OverlaidSnoc(p.inlined, p.uploads, a);
    OverlaidKeys(p.inlined, p.uploads);
    OverlaidKeys(Attach(p, a).inlined, p.uploads);
    if a.line.name !in Held(p) {
      OverlaidInside(p.inlined, p.uploads, a.line.name, EntryOf(a));
    }
    hide Overlaid;
  }

  /** A document ends up with one attachment for each name, whichever way they went. */
  lemma {:induction false} HeldNames(body: Bytes, atts: seq<Record>)
    requires Attachments(atts)
    ensures var p := AttachAll(Plain(body), atts); Attachments(p.uploads) && Held(p).Keys == Names(atts)
  {
    if atts != [] {
      var front, a := atts[..|atts| - 1], atts[|atts| - 1];
      assert atts == front + [a];
      HeldNames(body, front);
      NamesSnoc(front, a);
      HeldSnoc(AttachAll(Plain(body), front), a);
      hide Attach, Held, Names;
    }
  }

  /** There are as many names as attachments exactly when none is used twice. */
  lemma {:induction false} NamesCount(atts: seq<Record>)
    requires Attachments(atts)
    ensures |Names(atts)| <= |atts|
    ensures |Names(atts)| == |atts| <==> NoClash(atts)
  {
    if atts != [] {
      var front, a := atts[..|atts| - 1], atts[|atts| - 1];
      assert atts == front + [a];
      NamesCount(front);
      NamesSnoc(front, a);
      ClashSnoc(front, a);
      hide Names, NoClash;
    }
  }

  lemma ClashSnoc(front: seq<Record>, a: Record)
    requires Attachments(front) && Attachments(front + [a]) && a.line.Att?
    ensures NoClash(front + [a]) <==> NoClash(front) && a.line.name !in Names(front)
  {
    var all := front + [a];
    assert forall i :: 0 <= i < |front| ==> all[i] == front[i];
    if a.line.name in Names(front) {
      var i :| 0 <= i < |front| && front[i].line.name == a.line.name;
      assert all[i].line.name == all[|front|].line.name;
    }
  }

  lemma {:induction false} CarriedWithoutClash(body: Bytes, atts: seq<Record>)
    requires Attachments(atts) && NoClash(atts)
    ensures var p := AttachAll(Plain(body), atts); Attachments(p.uploads) && EachCarried(p, body, atts)
  {
    if atts != [] {
      var front, a := atts[..|atts| - 1], atts[|atts| - 1];
      assert atts == front + [a];
      ClashSnoc(front, a);
      CarriedWithoutClash(body, front);
      HeldNames(body, front);
      hide NoClash, Names, Held;
      CarriesOneMore(body, front, a);
    }
  }

  lemma CarriesOneMore(body: Bytes, front: seq<Record>, a: Record)
    requires Attachments(front) && Attachments(front + [a])
    requires var q := AttachAll(Plain(body), front);
             Attachments(q.uploads) && a.line.Att? && a.line.name !in Held(q) && EachCarried(q, body, front)
    requires Held(AttachAll(Plain(body), front)).Keys == Names(front)
    ensures var p := AttachAll(Plain(body), front + [a]); Attachments(p.uploads) && EachCarried(p, body, front + [a])
  {
    var atts, q := front + [a], AttachAll(Plain(body), front);
    assert a in atts && atts[..|front|] == front;
    var p := Attach(q, a);
    HeldSnoc(q, a);
    hide EncodedLen, Held, AttachAll;
    forall i | 0 <= i < |atts|
      ensures Carries(p, atts[i], InlinedAt(body, atts, i))
    {
      if i < |front| {
        FrontInlines(body, atts, i);
        assert Carries(q, front[i], InlinedAt(body, front, i));
        assert front[i] in front;
        hide InlinedAt;
        CarriedStill(q, a, front[i], InlinedAt(body, front, i));
      }
    }
  }

  lemma CarriedStill(q: Outgoing, a: Record, x: Record, inside: bool)
    requires Attachments(q.uploads) && x.line.Att? && a.line.Att? && a.line.length == |a.payload|
    requires Carries(q, x, inside) && a.line.name !in Held(q)
    ensures Attachments(Attach(q, a).uploads) && Carries(Attach(q, a), x, inside)
  {
    HeldSnoc(q, a);
    hide EncodedLen, Held;
  }

  /** A document ends up with each of its attachments exactly once, and with nothing else, if
      and only if no two of them share a name. */
  lemma CarriedExactly(body: Bytes, atts: seq<Record>)
    requires Attachments(atts)
    ensures CarriesAll(AttachAll(Plain(body), atts), body, atts) <==> NoClash(atts)
  {
    hide AttachAll, InlinedAt, Spilled, Held, NoClash, Names;
    UploadsAreSpilled(body, atts);
    HeldNames(body, atts);
    NamesCount(atts);
    assert |Held(AttachAll(Plain(body), atts))| == |Held(AttachAll(Plain(body), atts)).Keys|;
    if NoClash(atts) {
      CarriedWithoutClash(body, atts);
    }
  }

  // ---------------------------------------------------------------- the documents of a dump

  /** A doc record and the att records that follow it. */
  datatype Group = Group(doc: Record, atts: seq<Record>)

  function Groups(rs: seq<Record>): seq<Group> {
    if rs == [] then [] else Regroup(Groups(rs[..|rs| - 1]), rs[|rs| - 1])
  }

  function Regroup(gs: seq<Group>, r: Record): seq<Group> {
    match r.line
    case Doc(_) => gs + [Group(r, [])]
    case Att(_, _, _, _, _) =>
      if gs == [] then [] else gs[..|gs| - 1] + [Group(gs[|gs| - 1].doc, gs[|gs| - 1].atts + [r])]
    case _ => gs
  }

  function Ungrouped(gs: seq<Group>): seq<Record> {
    if gs == [] then [] else Ungrouped(gs[..|gs| - 1]) + [gs[|gs| - 1].doc] + gs[|gs| - 1].atts
  }

  /** A document of a dump, from its own records alone. */
  predicate IsGroup(p: Outgoing, g: Group) {
    g.doc.line.Doc? && Attachments(g.atts) && p == AttachAll(Plain(g.doc.line.body), g.atts)
  }

  predicate AreGroups(ds: seq<Outgoing>, gs: seq<Group>) {
    |ds| == |gs| && forall i :: 0 <= i < |ds| ==> IsGroup(ds[i], gs[i])
  }

  lemma RecordJoins(ds: seq<Outgoing>, gs: seq<Group>, r: Record)
    requires AreGroups(ds, gs) && (r.line.Att? ==> ds != [] && r.line.length == |r.payload|)
    ensures AreGroups(Extend(ds, r), Regroup(gs, r))
  {
    hide Attach;
    if r.line.Att? {
      var p, g := ds[|ds| - 1], gs[|gs| - 1];
      assert IsGroup(p, g) && (g.atts + [r])[..|g.atts|] == g.atts;
      assert IsGroup(Attach(p, r), Group(g.doc, g.atts + [r]));
    }
  }

  /** Every document restore writes is made of its own doc record and the att records that
      follow it, by the one-document rule. */
  lemma {:induction false} DocumentsAreGroups(j: Json, rs: seq<Record>)
    requires Ordered(j, rs)
    ensures AreGroups(Documents(j, rs), Groups(rs))
  {
    if rs != [] {
      OrderedFront(j, rs);
      DocumentsAreGroups(j, rs[..|rs| - 1]);
      hide Ordered, AreGroups, Extend, Regroup;
      RecordJoins(Documents(j, rs[..|rs| - 1]), Groups(rs[..|rs| - 1]), rs[|rs| - 1]);
    }
  }

  lemma RegroupSpells(gs: seq<Group>, r: Record)
    requires r.line.Att? ==> gs != []
    ensures Ungrouped(Regroup(gs, r)) == Ungrouped(gs) + if IsContent(r) then [r] else []
  {
    if r.line.Doc? {
      assert (gs + [Group(r, [])])[..|gs|] == gs;
      assert Ungrouped(gs) + [r] + [] == Ungrouped(gs) + [r];
    } else if r.line.Att? {
      var n := |gs| - 1;
      assert (gs[..n] + [Group(gs[n].doc, gs[n].atts + [r])])[..n] == gs[..n];
      Associate(Ungrouped(gs[..n]) + [gs[n].doc], gs[n].atts, [r]);
    } else {
      assert Ungrouped(gs) + [] == Ungrouped(gs);
    }
  }

  /** And the groups, one after another, are the dump's doc and att records: none is left
      out, moved or used twice. */
  lemma {:induction false} GroupsAreTheRecords(j: Json, rs: seq<Record>)
    requires Ordered(j, rs)
    ensures Ungrouped(Groups(rs)) == Kept(rs)
  {
    if rs != [] {
      OrderedFront(j, rs);
      GroupsAreTheRecords(j, rs[..|rs| - 1]);
      DocumentsAreGroups(j, rs[..|rs| - 1]);
      hide Ordered, Ungrouped, Regroup;
      RegroupSpells(Groups(rs[..|rs| - 1]), rs[|rs| - 1]);
    }
  }

  /** So document i of any dump restore accepts ends up with each of its attachments exactly
      once if and only if no two of them share a name. */
  lemma DumpCarries(j: Json, rs: seq<Record>, i: nat)
    requires Ordered(j, rs) && i < |Documents(j, rs)|
    ensures i < |Groups(rs)| && IsGroup(Documents(j, rs)[i], Groups(rs)[i])
    ensures var g := Groups(rs)[i];
            CarriesAll(Documents(j, rs)[i], g.doc.line.body, g.atts) <==> NoClash(g.atts)
  {
    hide Documents, Groups, Ordered, AttachAll, CarriesAll, NoClash;
    DocumentsAreGroups(j, rs);
    CarriedExactly(Groups(rs)[i].doc.line.body, Groups(rs)[i].atts);
  }

  /** Two attachments of one name under one document are accepted, whatever their sizes. */
  lemma TwoOfOneName(j: Json, d: Record, a: Record, b: Record)
    requires d.line.Doc? && !j.isTombstone(d.line.body)
    requires forall x :: x in [a, b] ==>
               && x.line.Att? && x.line.length == |x.payload|
               && x.line.id == j.idOf(d.line.body) && x.line.rev == j.revOf(d.line.body)
    ensures Ordered(j, [d, a, b]) && Documents(j, [d, a, b]) == [Attach(Attach(Plain(d.line.body), a), b)]
  {
    var p := Plain(d.line.body);
    assert a in [a, b] && b in [a, b];
    OneDocument(j, d);
    assert [d] + [a] == [d, a] && [d, a] + [b] == [d, a, b];
    LastDocSnoc([d], a);
    hide LastDoc, Documents, Ordered, Attach, Plain;
    DocumentsSnoc(j, [d], a);
    WithOnly(p, a);
    DocumentsSnoc(j, [d, a], b);
    WithOnly(Attach(p, a), b);
    hide Extend, WithLast;
  }

  lemma OneDocument(j: Json, d: Record)
    requires d.line.Doc?
    ensures Ordered(j, [d]) && Documents(j, [d]) == [Plain(d.line.body)] && LastDoc([d]) == Some(d.line.body)
  {
    NoDocuments(j);
    assert [] + [d] == [d];
    hide Documents, Ordered;
    DocumentsSnoc(j, [], d);
    LastDocSnoc([], d);
  }

  lemma WithOnly(p: Outgoing, r: Record)
    requires r.line.Att? && 0 <= r.line.length
    ensures WithLast([p], r) == [Attach(p, r)]
  {
    hide Attach;
    assert [p][..0] == [];
  }

  lemma NoDocuments(j: Json)
    ensures Ordered(j, []) && Documents(j, []) == []
  {
  }

  /** Only one of the two is left: the last upload if there is one, since uploads come after
      the document, and else the later entry inside. */
  lemma SameNameLosesOne(body: Bytes, a: Record, b: Record)
    requires forall x :: x in [a, b] ==> x.line.Att? && x.line.length == |x.payload|
    requires a.line.name == b.line.name && a.payload != b.payload
    ensures var p := Attach(Attach(Plain(body), a), b);
            var a' := |a.payload| > INLINE_LIMIT && |b.payload| <= INLINE_LIMIT;
            var kept, lost := if a' then a else b, if a' then b else a;
            && Attachments(p.uploads) && Held(p) == map[a.line.name := EntryOf(kept)]
            && !Carries(p, lost, true) && !Carries(p, lost, false)
  {
    assert a in [a, b] && b in [a, b];
    TwoGo(body, a, b);
    hide Attach, Held;
    HeldOfTwo(Attach(Attach(Plain(body), a), b), a, b, |a.payload| <= INLINE_LIMIT, |b.payload| <= INLINE_LIMIT);
  }

  lemma HeldOfTwo(p: Outgoing, a: Record, b: Record, smallA: bool, smallB: bool)
    requires a.line.Att? && a.line.length == |a.payload| && b.line.Att? && b.line.length == |b.payload|
    requires a.line.name == b.line.name
    requires p.uploads == (if smallA then [] else [a]) + (if smallB then [] else [b])
    requires p.inlined == if smallB then map[b.line.name := EntryOf(b)] else if smallA then map[a.line.name := EntryOf(a)] else map[]
    ensures Attachments(p.uploads) && Held(p) == map[a.line.name := EntryOf(if !smallA && smallB then a else b)]
  {
    hide Overlaid;
    if smallA && smallB {
      assert p.uploads == [];
      OverlaidNone(p.inlined);
    } else if smallA || smallB {
      var u := if smallA then b else a;
      assert p.uploads == [u];
      OverlaidOne(p.inlined, u);
    } else {
      assert p.uploads == [a] + [b];
      OverlaidOne(p.inlined, a);
      OverlaidSnoc(p.inlined, [a], b);
    }
  }

  lemma OverlaidNone(inside: map<string, Entry>)
    ensures Overlaid(inside, []) == inside
  {
  }

  lemma OverlaidOne(inside: map<string, Entry>, a: Record)
    requires a.line.Att? && a.line.length == |a.payload|
    ensures Attachments([a]) && Overlaid(inside, [a]) == inside[a.line.name := EntryOf(a)]
  {
    OverlaidSnoc(inside, [], a);
    assert [] + [a] == [a];
  }

  /** Where two attachments go: each inside if it is small, and else to the uploads. */
  lemma TwoGo(body: Bytes, a: Record, b: Record)
    requires forall x :: x in [a, b] ==> x.line.Att? && x.line.length == |x.payload|
    requires a.line.name == b.line.name
    ensures a.line.Att? && b.line.Att?
    ensures var p, n := Attach(Attach(Plain(body), a), b), a.line.name;
            && p.uploads == (if |a.payload| <= INLINE_LIMIT then [] else [a]) + (if |b.payload| <= INLINE_LIMIT then [] else [b])
            && p.inlined == if |b.payload| <= INLINE_LIMIT then map[n := EntryOf(b)]
                            else if |a.payload| <= INLINE_LIMIT then map[n := EntryOf(a)] else map[]
  {
    assert a in [a, b] && b in [a, b];
  }

  /** README.md:404 says attachments up to 4 MiB restore inline.  Any two on one document do. */
  lemma TwoAlwaysInline(body: Bytes, a: Record, b: Record)
    requires a.line.Att? && a.line.length == |a.payload| <= INLINE_LIMIT
    requires b.line.Att? && b.line.length == |b.payload| <= INLINE_LIMIT
    ensures InlinedAt(body, [a, b], 0) && InlinedAt(body, [a, b], 1)
  {
    assert [a, b][..0] == [] && [a, b][..1] == [a] && [a][..0] == [];
    assert AttachAll(Plain(body), [a]) == Attach(Plain(body), a);
  }

  /** Three of exactly 4 MiB need 16 MiB and 8 bytes of base64, so the third is spilled. */
  lemma ThreeNeedNot(body: Bytes, a: Record, b: Record, c: Record)
    requires forall x :: x in [a, b, c] ==> x.line.Att? && x.line.length == |x.payload| == INLINE_LIMIT
    ensures 3 * EncodedLen(INLINE_LIMIT) == BATCH_BYTES + 8
    ensures !InlinedAt(body, [a, b, c], 2)
  {
    var all := [a, b, c];
    assert a in all && b in all && c in all;
    TwoAlwaysInline(body, a, b);
    assert all[..2] == [a, b] && [a, b][..1] == [a] && [a][..0] == [] && [a, b][..0] == [];
    var p := AttachAll(Plain(body), [a, b]);
    assert AttachAll(Plain(body), [a]) == Attach(Plain(body), a);
    assert p == Attach(AttachAll(Plain(body), [a]), b);
    assert p.inlineBytes == 2 * EncodedLen(INLINE_LIMIT);
  }

  /** Exactly when every attachment of a document restores inline: all are small enough and
      their base64 forms together fit in one request. */
  lemma {:induction false} AllInlineIff(body: Bytes, atts: seq<Record>)
    requires Attachments(atts)
    ensures AttachAll(Plain(body), atts).inlineBytes <= EncodedTotal(atts)
    ensures AttachAll(Plain(body), atts).uploads == []
       <==> EncodedTotal(atts) <= BATCH_BYTES && forall a :: a in atts ==> |a.payload| <= INLINE_LIMIT
    ensures AttachAll(Plain(body), atts).uploads == [] ==>
              AttachAll(Plain(body), atts).inlineBytes == EncodedTotal(atts)
  {
    if atts != [] {
      var front, last := atts[..|atts| - 1], atts[|atts| - 1];
      AllInlineIff(body, front);
      assert atts == front + [last];
      assert forall a :: a in atts <==> a in front || a == last;
    }
  }

  function SumLengths(uploads: seq<Record>): nat {
    if uploads == [] then 0 else SumLengths(uploads[..|uploads| - 1]) + |uploads[|uploads| - 1].payload|
  }

  /** What a document counts for in its batch: its body, the base64 it carries, and the
      spilled payloads that wait on disk for it. */
  lemma {:induction false} BytesHeld(body: Bytes, atts: seq<Record>)
    requires Attachments(atts)
    ensures var p := AttachAll(Plain(body), atts);
            && (forall u :: u in p.uploads ==> u in atts)
            && p.bytes == |body| + p.inlineBytes + SumLengths(p.uploads)
  {
    if atts != [] {
      var front, a := atts[..|atts| - 1], atts[|atts| - 1];
      var q := AttachAll(Plain(body), front);
      BytesHeld(body, front);
      assert a in atts && (q.uploads + [a])[..|q.uploads|] == q.uploads;
      hide EncodedLen;
    }
  }

  function EncodedTotal(atts: seq<Record>): nat {
    if atts == [] then 0 else EncodedTotal(atts[..|atts| - 1]) + EncodedLen(|atts[|atts| - 1].payload|)
  }
}
