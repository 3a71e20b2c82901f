/** put, rm and cat as stages of a line (internal/command/pipeconsume.go): whatever lots their
    values come in, a consumer that answers for each value on its own emits what the
    composition says. */
module PipelineConsumers {
  import opened Wrappers
  import Pipeline
  import PipeConsume

  type Value = string

  /** What a consumer emits for one checked value. */
  type PerValue = Value -> seq<Value>

  function Answers(vals: seq<Value>, answer: PerValue): seq<Value> {
    if vals == [] then [] else Answers(vals[..|vals| - 1], answer) + answer(vals[|vals| - 1])
  }

  /** The consumer as a stage: it checks the value it has just read by its position, and
      fails at the first it refuses. */
  function React(check: PipeConsume.Check, answer: PerValue, read: seq<Value>): Pipeline.Reaction {
    if read == [] then Pipeline.Emit([])
    else
      match check(|read|, read[|read| - 1])
      case Some(v) => Pipeline.Emit(answer(v))
      case None => Pipeline.Fail([], Pipeline.Problem("refused"))
  }

  function Consumer(check: PipeConsume.Check, answer: PerValue): (p: Pipeline.Process)
    ensures p.lags && !p.waits && !p.live && p.setup == None
  {
    Pipeline.Process(None, false, false, true, (h: seq<Value>) => React(check, answer, h), (h: seq<Value>) => Pipeline.Stop([]))
  }

  lemma {:induction false} AnswersAppend(a: seq<Value>, b: seq<Value>, answer: PerValue)
    ensures Answers(a + b, answer) == Answers(a, answer) + Answers(b, answer)
  {
    if b == [] {
      assert a + b == a;
    } else {
      var front := b[..|b| - 1];
      assert (a + b)[..|a + b| - 1] == a + front;
      AnswersAppend(a, front, answer);
      Associate(Answers(a, answer), Answers(front, answer), answer(b[|b| - 1]));
    }
  }

  /** Having read the first values, all accepted, it has answered for each. */
  lemma {:induction false} ReadsOn(check: PipeConsume.Check, answer: PerValue, vals: seq<Value>, out: seq<Value>)
    requires PipeConsume.Batched(vals, 0, 0, check, out)
    ensures Pipeline.Reading(Consumer(check, answer), vals[..|out|]) == Pipeline.Outcome(Answers(out, answer), Pipeline.Open)
  {
    if out != [] {
      var n := |out| - 1;
      ReadsOn(check, answer, vals, out[..n]);
      assert vals[..n + 1][..n] == vals[..n];
      assert check(0 + n + 1, vals[0 + n]) == Some(out[n]);
    }
  }

  /** And at a value it refuses it has failed, whatever comes behind. */
  lemma {:induction false} Refuses(check: PipeConsume.Check, answer: PerValue, vals: seq<Value>, n: nat)
    requires 0 < n <= |vals| && check(n, vals[n - 1]) == None
    ensures Pipeline.Reading(Consumer(check, answer), vals).status.Failed?
    decreases |vals|
  {
    if n < |vals| {
      Refuses(check, answer, vals[..|vals| - 1], n);
    } else {
      NeverStops(check, answer, vals[..|vals| - 1]);
    }
  }

  lemma {:induction false} NeverStops(check: PipeConsume.Check, answer: PerValue, vals: seq<Value>)
    ensures Pipeline.Reading(Consumer(check, answer), vals).status != Pipeline.Ended
  {
    if vals != [] {
      NeverStops(check, answer, vals[..|vals| - 1]);
    }
  }

  /** The consumer's loop: lot after lot, whatever was waiting when.  Its rows are those of
      the stage over the whole pipeline, and when a value is refused the stage fails too. */
  method Consume(p: PipeConsume.Pipe, check: PipeConsume.Check, answer: PerValue)
    returns (rows: seq<Value>, problem: Option<PipeConsume.Problem>)
    requires p.Valid() && p.at == 0
    modifies p
    ensures problem.None? ==> Pipeline.Outcome(rows, Pipeline.Ended) == Pipeline.Closed(Consumer(check, answer), p.values)
    ensures problem.Some? && problem.value.BadValue? ==> Pipeline.Closed(Consumer(check, answer), p.values).status.Failed?
    ensures rows <= Pipeline.Closed(Consumer(check, answer), p.values).vals
  {
    var batches;
    batches, problem := PipeConsume.AllBatches(p, check);
    rows := [];
    for i := 0 to |batches|
      invariant rows == Answers(PipeConsume.Concat(batches[..i]), answer)
    {
      assert batches[..i + 1][..i] == batches[..i];
      AnswersAppend(PipeConsume.Concat(batches[..i]), batches[i], answer);
      rows := rows + Answers(batches[i], answer);
    }
    assert batches[..|batches|] == batches;
    ghost var out := PipeConsume.Concat(batches);
    ReadsOn(check, answer, p.values, out);
    assert problem.None? ==> p.values[..|out|] == p.values;
    if problem.Some? && problem.value.BadValue? {
      Refuses(check, answer, p.values, problem.value.n);
    }
    ReadingKeeps(Consumer(check, answer), p.values, |out|);
  }

  /** What a stage has emitted it does not take back. */
  lemma {:induction false} ReadingKeeps(p: Pipeline.Process, vals: seq<Value>, n: nat)
    requires n <= |vals|
    ensures Pipeline.Reading(p, vals[..n]).vals <= Pipeline.Reading(p, vals).vals <= Pipeline.Closed(p, vals).vals
    decreases |vals|
  {
    if n < |vals| {
      assert vals[..|vals| - 1][..n] == vals[..n];
      ReadingKeeps(p, vals[..|vals| - 1], n);
    } else {
      assert vals[..n] == vals;
    }
  }
}
