/** The commands that read a pipeline (internal/command/pipeconsume.go, pipe.go): values into
    batches, references into databases, deletions into one result per reference. */
module PipeConsume {
  import opened Wrappers

  const PIPE_BATCH := 100

  type Value = string

  /** The stage above, as its reader sees it.  It hands over `values` and then closes;
      ready(k) says whether something is waiting when the pipe is asked for the k-th time,
      and cancels(k) whether the line's cancellation answers that k-th wait instead. */
  class Pipe {
    const values: seq<Value>
    const ready: nat -> bool
    const cancels: nat -> bool
    var at: nat   // values handed over
    var asked: nat

    constructor (values: seq<Value>, ready: nat -> bool, cancels: nat -> bool)
      ensures this.values == values && this.ready == ready && this.cancels == cancels && at == 0
    {
      this.values, this.ready, this.cancels := values, ready, cancels;
      at, asked := 0, 0;
    }

    ghost predicate Valid()
      reads this
    {
      at <= |values|
    }

    /** Next waits: a value, None at the end, or the cancellation. */
    method Next() returns (v: Result<Option<Value>, Problem>)
      requires Valid()
      modifies this
      ensures Valid()
      ensures v == if cancels(old(asked)) then Err(Canceled) else Ok(if old(at) < |values| then Some(values[old(at)]) else None)
      ensures at == if v.Ok? && v.value.Some? then old(at) + 1 else old(at)
      ensures asked == old(asked) + 1
    {
      asked := asked + 1;
      if cancels(asked - 1) {
        return Err(Canceled);
      }
      if at == |values| {
        return Ok(None);
      }
      at := at + 1;
      return Ok(Some(values[at - 1]));
    }

    /** TryNext takes only what is there: nothing yet, a value, or the end. */
    method TryNext() returns (v: Option<Value>, waiting: bool)
      requires Valid()
      modifies this
      ensures Valid()
      ensures waiting == ready(old(asked)) && asked == old(asked) + 1
      ensures waiting ==> v == if old(at) < |values| then Some(values[old(at)]) else None
      ensures !waiting ==> v == None
      ensures at == if v.Some? then old(at) + 1 else old(at)
    {
      asked := asked + 1;
      if !ready(asked - 1) {
        return None, false;
      }
      if at == |values| {
        return None, true;
      }
      at := at + 1;
      return Some(values[at - 1]), true;
    }
  }

  datatype Problem = Canceled | BadValue(n: nat)

  /** What a check makes of the n-th value of a pipeline. */
  type Check = (nat, Value) -> Option<Value>

  /** `batch` is what the checks made of the values from `from` on; seen counts from there. */
  predicate Batched(values: seq<Value>, from: nat, seen: nat, check: Check, batch: seq<Value>) {
    && from + |batch| <= |values|
    && forall k :: 0 <= k < |batch| ==> check(seen + k + 1, values[from + k]) == Some(batch[k])
  }

  /** nextBatch: it waits for the first value and then takes what is already there, up to a
      hundred; only the wait for the first can end in the cancellation. */
  method NextBatch(p: Pipe, seen: nat, check: Check) returns (r: Result<seq<Value>, Problem>, seen': nat)
    requires p.Valid()
    modifies p
    ensures p.Valid() && old(p.at) <= p.at
    ensures p.asked > old(p.asked)
    ensures r.Ok? ==>
              && |r.value| <= 100
              && Batched(p.values, old(p.at), seen, check, r.value)
              && p.at == old(p.at) + |r.value| && seen' == seen + |r.value|
              && (|r.value| < 100 ==> p.at == |p.values| || (r.value != [] && !p.ready(p.asked - 1)))
    ensures r == Err(Canceled) <==> p.cancels(old(p.asked))
    ensures r == Err(Canceled) ==> p.at == old(p.at) && p.asked == old(p.asked) + 1 && seen' == seen
    ensures r.Err? && r.error.BadValue? ==>
              p.at > old(p.at) && r.error.n == seen' == seen + (p.at - old(p.at)) && check(seen', p.values[p.at - 1]) == None
    ensures r.Err? && r.error.BadValue? ==>
              p.at - old(p.at) <= 100 && forall k :: old(p.at) <= k < p.at - 1 ==> check(seen + (k - old(p.at)) + 1, p.values[k]).Some?
  {
    var batch: seq<Value> := [];
    seen' := seen;
    ghost var from := p.at;
    while |batch| < PIPE_BATCH
      invariant p.Valid() && |batch| <= PIPE_BATCH
      invariant Batched(p.values, from, seen, check, batch)
      invariant p.at == from + |batch| && seen' == seen + |batch|
      invariant p.asked == old(p.asked) + |batch| && (batch != [] ==> !p.cancels(old(p.asked)))
      decreases PIPE_BATCH - |batch|
    {
      var v: Option<Value>;
      if batch == [] {
        var next := p.Next();
        if next.Err? {
          return Err(next.error), seen';
        }
        v := next.value;
      } else {
        var waiting;
        v, waiting := p.TryNext();
        if !waiting {
          break;
        }
      }
      if v.None? {
        break;
      }
      seen' := seen' + 1;
      var out := check(seen', v.value);
      if out.None? {
        forall k | from <= k < from + |batch|
          ensures check(seen + (k - from) + 1, p.values[k]).Some?
        {
          assert check(seen + (k - from) + 1, p.values[from + (k - from)]) == Some(batch[k - from]);
        }
        return Err(BadValue(seen')), seen';
      }
      batch := batch + [out.value];
    }
    r := Ok(batch);
  }

  function Concat(batches: seq<seq<Value>>): seq<Value> {
    if batches == [] then [] else Concat(batches[..|batches| - 1]) + batches[|batches| - 1]
  }

  /** A consumer's loop, batch after batch until the pipeline has finished: whatever was
      waiting when, the batches hold the pipeline's values in order, each once, in lots of
      1 to 100 - all of them when no value is refused and nobody cancels. */
  method AllBatches(p: Pipe, check: Check) returns (batches: seq<seq<Value>>, problem: Option<Problem>)
    requires p.Valid() && p.at == 0
    modifies p
    ensures forall k :: 0 <= k < |batches| ==> 1 <= |batches[k]| <= 100
    ensures Batched(p.values, 0, 0, check, Concat(batches))
    ensures problem.None? ==> |Concat(batches)| == |p.values|
    ensures problem == Some(Canceled) ==> p.asked > 0 && p.cancels(p.asked - 1)
    ensures problem.Some? && problem.value.BadValue? ==>
              var n := problem.value.n;
              && 0 < n <= |p.values| && |Concat(batches)| < n <= |Concat(batches)| + 100 && check(n, p.values[n - 1]) == None
              && forall k :: 0 <= k < n - 1 ==> check(k + 1, p.values[k]).Some?
  {
    batches := [];
    var seen := 0;
    while true
      invariant p.Valid() && seen == p.at == |Concat(batches)|
      invariant forall k :: 0 <= k < |batches| ==> 1 <= |batches[k]| <= 100
      invariant Batched(p.values, 0, 0, check, Concat(batches))
      decreases |p.values| - p.at
    {
      var r, n := NextBatch(p, seen, check);
      seen := n;
      if r.Err? {
        assert forall k :: 0 <= k < |Concat(batches)| ==> check(k + 1, p.values[k]) == Some(Concat(batches)[k]);
        return batches, Some(r.error);
      }
      if r.value == [] {
        return batches, None;
      }
      ghost var all := Concat(batches);
      assert (batches + [r.value])[..|batches|] == batches;
      batches := batches + [r.value];
      assert Concat(batches) == all + r.value;
    }
  }

  // ---------------------------------------------------------------- references by database

  datatype Ref = Ref(db: string, id: string, rev: string)

  /** The references to one database, in the order they came. */
  function Of(refs: seq<Ref>, db: string): seq<Ref> {
    if refs == [] then []
    else Of(refs[..|refs| - 1], db) + (if refs[|refs| - 1].db == db then [refs[|refs| - 1]] else [])
  }

  /** The databases, in the order they first appeared. */
  function Databases(refs: seq<Ref>): seq<string> {
    if refs == [] then []
    else
      var before, db := Databases(refs[..|refs| - 1]), refs[|refs| - 1].db;
      if db in before then before else before + [db]
  }

  lemma Snoc(refs: seq<Ref>, i: nat)
    requires i < |refs|
    ensures Databases(refs[..i + 1]) == var before := Databases(refs[..i]); if refs[i].db in before then before else before + [refs[i].db]
    ensures forall db :: Of(refs[..i + 1], db) == Of(refs[..i], db) + (if refs[i].db == db then [refs[i]] else [])
  {
    assert refs[..i + 1][..i] == refs[..i];
  }

  method ByDatabase(refs: seq<Ref>) returns (order: seq<string>, groups: map<string, seq<Ref>>)
    ensures order == Databases(refs)
    ensures forall db :: db in groups <==> db in order
    ensures forall db :: db in groups ==> groups[db] == Of(refs, db)
  {
    order, groups := [], map[];
    assert Databases(refs[..0]) == [] && forall db :: Of(refs[..0], db) == [];
    hide Of, Databases;
    for i := 0 to |refs|
      invariant order == Databases(refs[..i])
      invariant forall db :: db in groups <==> db in order
      invariant forall db :: db in groups ==> groups[db] == Of(refs[..i], db)
      invariant forall db :: db !in groups ==> Of(refs[..i], db) == []
    {
      var r := refs[i];
      Snoc(refs, i);
      assert r.db in groups <==> r.db in order;
      if r.db !in groups {
        order := order + [r.db];
        groups := groups[r.db := []];
      }
      groups := groups[r.db := groups[r.db] + [r]];
    }
    assert refs[..|refs|] == refs;
  }

  /** The groups one after another. */
  function Regrouped(refs: seq<Ref>, order: seq<string>): seq<Ref> {
    if order == [] then [] else Regrouped(refs, order[..|order| - 1]) + Of(refs, order[|order| - 1])
  }

  predicate Distinct(order: seq<string>) {
    forall i, j :: 0 <= i < j < |order| ==> order[i] != order[j]
  }

  lemma {:induction false} DatabasesAreDistinct(refs: seq<Ref>)
    ensures Distinct(Databases(refs)) && forall r :: r in refs ==> r.db in Databases(refs)
  {
    if refs != [] {
      var front := refs[..|refs| - 1];
      DatabasesAreDistinct(front);
      assert forall r :: r in refs ==> r in front || r == refs[|refs| - 1];
    }
  }

  lemma {:induction false} RegroupSnoc(refs: seq<Ref>, r: Ref, order: seq<string>)
    requires Distinct(order)
    ensures multiset(Regrouped(refs + [r], order)) == multiset(Regrouped(refs, order)) + (if r.db in order then multiset{r} else multiset{})
  {
    if order != [] {
      var front, last := order[..|order| - 1], order[|order| - 1];
      RegroupSnoc(refs, r, front);
      assert (refs + [r])[..|refs|] == refs;
      assert order == front + [last];
      assert r.db in order <==> r.db in front || r.db == last;
    }
  }

  lemma {:induction false} RegroupNone(order: seq<string>)
    ensures Regrouped([], order) == []
  {
    if order != [] {
      RegroupNone(order[..|order| - 1]);
    }
  }

  lemma {:induction false} RegroupAll(refs: seq<Ref>, order: seq<string>)
    requires Distinct(order) && forall r :: r in refs ==> r.db in order
    ensures multiset(Regrouped(refs, order)) == multiset(refs)
  {
    if refs == [] {
      RegroupNone(order);
    } else {
      var front, last := refs[..|refs| - 1], refs[|refs| - 1];
      assert refs == front + [last];
      RegroupAll(front, order);
      RegroupSnoc(front, last, order);
    }
  }

  /** Grouping by database loses no reference and repeats none. */
  lemma GroupingKeepsAll(refs: seq<Ref>)
    ensures multiset(Regrouped(refs, Databases(refs))) == multiset(refs)
  {
    DatabasesAreDistinct(refs);
    RegroupAll(refs, Databases(refs));
  }

  // ---------------------------------------------------------------- one result per reference

  datatype BulkResult = BulkResult(id: string, rev: string, status: string)

  datatype Row = Row(id: string, rev: string, missing: bool)

  /** The current revision of each id, as the server holds it. */
  type Store = map<string, string>

  /** AllDocsByKeys: one row per key, in the order asked. */
  function RowsFor(store: Store, keys: seq<string>): (rows: seq<Row>)
    ensures |rows| == |keys| && forall k :: 0 <= k < |keys| ==> rows[k].id == keys[k]
  {
    seq(|keys|, k requires 0 <= k < |keys| => if keys[k] in store then Row(keys[k], store[keys[k]], false) else Row(keys[k], "", true))
  }

  /** A reference with the revision it carries, or the current one, or none. */
  function Filled(store: Store, r: Ref): Ref {
    if r.rev == "" && r.id in store then r.(rev := store[r.id]) else r
  }

  function FilledAll(store: Store, refs: seq<Ref>): (out: seq<Ref>)
    ensures |out| == |refs| && forall k :: 0 <= k < |refs| ==> out[k] == Filled(store, refs[k])
  {
    seq(|refs|, k requires 0 <= k < |refs| => Filled(store, refs[k]))
  }

  /** A reference that carries a revision keeps it; any other gets the current one, and is left
      without if the server does not know it. */
  predicate HaveRevisions(store: Store, refs: seq<Ref>, out: seq<Ref>) {
    && |out| == |refs|
    && forall k :: 0 <= k < |refs| ==>
         && out[k].db == refs[k].db && out[k].id == refs[k].id
         && out[k].rev == if refs[k].rev != "" then refs[k].rev else if refs[k].id in store then store[refs[k].id] else ""
  }

  /** fillRevisions asks once for all the revisions missing. */
  method FillRevisions(store: Store, refs: seq<Ref>) returns (out: seq<Ref>)
    ensures out == FilledAll(store, refs)
    ensures HaveRevisions(store, refs, out)
  {
    var keys: seq<string> := [];
    for i := 0 to |refs|
      invariant forall k :: 0 <= k < i && refs[k].rev == "" ==> refs[k].id in keys
    {
      if refs[i].rev == "" {
        keys := keys + [refs[i].id];
      }
    }
    if keys == [] {
      assert forall k :: 0 <= k < |refs| ==> refs[k].rev != "";
      return refs;
    }
    var rows := RowsFor(store, keys);
    var revs: map<string, string> := map[];
    for i := 0 to |rows|
      invariant forall k :: 0 <= k < i && !rows[k].missing ==> rows[k].id in revs
      invariant forall id :: id in revs ==> id in store && revs[id] == store[id]
    {
      if !rows[i].missing {
        revs := revs[rows[i].id := rows[i].rev];
      }
    }
    out := refs;
    for i := 0 to |out|
      invariant |out| == |refs|
      invariant forall k :: 0 <= k < i ==> out[k] == Filled(store, refs[k])
      invariant forall k :: i <= k < |refs| ==> out[k] == refs[k]
    {
      if out[i].rev == "" {
        assert out[i].id in keys;
        var j :| 0 <= j < |keys| && keys[j] == out[i].id;
        assert rows[j].id == out[i].id;
        out := out[i := out[i].(rev := if out[i].id in revs then revs[out[i].id] else "")];
      }
    }
  }

  /** The documents a batch of deletions writes: the references that have a revision. */
  function Tombstones(refs: seq<Ref>): seq<Ref> {
    if refs == [] then []
    else Tombstones(refs[..|refs| - 1]) + (if refs[|refs| - 1].rev != "" then [refs[|refs| - 1]] else [])
  }

  lemma {:induction false} TombstonesSnoc(refs: seq<Ref>, i: nat)
    requires i < |refs|
    ensures Tombstones(refs[..i + 1]) == Tombstones(refs[..i]) + (if refs[i].rev != "" then [refs[i]] else [])
    ensures Tombstones(refs[..i + 1]) <= Tombstones(refs)
    decreases |refs|
  {
    assert refs[..i + 1][..i] == refs[..i];
    if i + 1 == |refs| {
      assert refs[..i + 1] == refs;
    } else {
      var front := refs[..|refs| - 1];
      TombstonesSnoc(front, i);
      assert front[..i + 1] == refs[..i + 1] && front[..i] == refs[..i];
    }
  }

  lemma {:induction false} TombstonesHaveRevisions(refs: seq<Ref>)
    ensures forall r :: r in Tombstones(refs) <==> r in refs && r.rev != ""
  {
    if refs != [] {
      TombstonesHaveRevisions(refs[..|refs| - 1]);
      assert refs == refs[..|refs| - 1] + [refs[|refs| - 1]];
    }
  }

  /** The place of reference k among the documents sent. */
  function Place(refs: seq<Ref>, k: nat): nat
    requires k <= |refs|
  {
    |Tombstones(refs[..k])|
  }

  lemma PlaceIsDocument(refs: seq<Ref>, k: nat)
    requires k < |refs| && refs[k].rev != ""
    ensures Place(refs, k) < |Tombstones(refs)| && Tombstones(refs)[Place(refs, k)] == refs[k]
  {
    TombstonesSnoc(refs, k);
  }

  /** What the i-th row should say: not found without a revision, and otherwise the answer to
      the document it sent. */
  function Answer(refs: seq<Ref>, written: seq<BulkResult>, i: nat): BulkResult
    requires i < |refs|
  {
    if refs[i].rev == "" then BulkResult(refs[i].id, "", "not_found")
    else if Place(refs, i) < |written| then written[Place(refs, i)]
    else BulkResult(refs[i].id, refs[i].rev, "ok")
  }

  /** BulkWrite's contract: one answer per document, in the order asked. */
  predicate InOrder(docs: seq<Ref>, written: seq<BulkResult>) {
    |written| == |docs| && forall k :: 0 <= k < |docs| ==> written[k].id == docs[k].id
  }

  /** rmBatch: one result per reference, in position, repeated ids included. */
  method RmBatch(store: Store, given: seq<Ref>, write: seq<Ref> -> seq<BulkResult>) returns (out: seq<BulkResult>)
    ensures |out| == |given|
    ensures var refs := FilledAll(store, given);
            var docs := Tombstones(refs);
            && (forall k :: 0 <= k < |refs| ==> out[k] == Answer(refs, if docs == [] then [] else write(docs), k))
            && (InOrder(docs, write(docs)) ==> forall k :: 0 <= k < |refs| ==> out[k].id == given[k].id)
  {
    hide Tombstones, FilledAll, HaveRevisions, Filled;
    var refs := FillRevisions(store, given);
    assert Tombstones(refs[..0]) == [] by {
      NoTombstones();
      assert refs[..0] == [];
    }
    var docs: seq<Ref>, sent: seq<nat> := [], [];
    out := [];
    for i := 0 to |refs|
      invariant |out| == i && docs == Tombstones(refs[..i]) && |sent| == |docs|
      invariant forall j :: 0 <= j < |sent| ==> sent[j] < i && refs[sent[j]].rev != "" && Place(refs, sent[j]) == j
      invariant forall k :: 0 <= k < i && refs[k].rev != "" ==> Place(refs, k) < |sent| && sent[Place(refs, k)] == k
      invariant forall k :: 0 <= k < i ==> out[k] == Answer(refs, [], k)
    {
      TombstonesSnoc(refs, i);
      var r := refs[i];
      if r.rev == "" {
        out := out + [BulkResult(r.id, "", "not_found")];
        continue;
      }
      sent := sent + [|out|];
      out := out + [BulkResult(r.id, r.rev, "ok")];
      docs := docs + [r];
    }
    assert refs[..|refs|] == refs;
    if docs == [] {
      NamesKept(store, given, refs, out, []);
      return out;
    }
    var written := write(docs);
    for i := 0 to |written|
      invariant |out| == |refs|
      invariant forall k :: 0 <= k < |refs| ==> out[k] == Answer(refs, written[..i], k)
    {
      assert written[..i + 1] == written[..i] + [written[i]];
      if i < |sent| {
        out := out[sent[i] := written[i]];
      }
    }
    assert written[..|written|] == written;
    NamesKept(store, given, refs, out, written);
  }

  /** Without a revision a reference was not sent and is not found; with one it is answered as
      the document sent for it was, or stands as written when there is no such answer. */
  lemma AnswerIs(refs: seq<Ref>, written: seq<BulkResult>, i: nat)
    requires i < |refs|
    ensures refs[i].rev == "" ==> Answer(refs, written, i) == BulkResult(refs[i].id, "", "not_found")
    ensures refs[i].rev != "" ==>
              Place(refs, i) < |Tombstones(refs)| && Tombstones(refs)[Place(refs, i)] == refs[i]
    ensures refs[i].rev != "" && |written| == |Tombstones(refs)| ==>
              Answer(refs, written, i) == written[Place(refs, i)]
    ensures refs[i].rev != "" && written == [] ==> Answer(refs, written, i) == BulkResult(refs[i].id, refs[i].rev, "ok")
  {
    if refs[i].rev != "" {
      PlaceIsDocument(refs, i);
    }
  }

  lemma NoTombstones()
    ensures Tombstones([]) == []
  {
  }

  lemma NamesKept(store: Store, given: seq<Ref>, refs: seq<Ref>, out: seq<BulkResult>, written: seq<BulkResult>)
    requires refs == FilledAll(store, given) && |out| == |refs|
    requires forall k :: 0 <= k < |refs| ==> out[k] == Answer(refs, written, k)
    ensures InOrder(Tombstones(refs), written) ==> forall k :: 0 <= k < |refs| ==> out[k].id == given[k].id
  {
    hide Tombstones;
    if InOrder(Tombstones(refs), written) {
      forall k | 0 <= k < |refs|
        ensures out[k].id == given[k].id
      {
        if refs[k].rev != "" {
          PlaceIsDocument(refs, k);
        }
      }
    }
  }
}
