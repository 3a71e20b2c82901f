/** What a stage emits, told straight from its reactions, and that this is what the executor
    hands on (internal/shell/pipeline.go). */
module PipelineEmission {
  import opened Wrappers
  import opened Pipeline
  import opened PipelineSafety

  // ---------------------------------------------------------------- one stage

  /** The first k values read are the last it reacts to: with the k-th it stops or fails. */
  predicate HaltsAt(p: Process, read: seq<Value>, k: nat) {
    && 0 < k <= |read| && !p.react(read[..k]).Emit?
    && forall i :: 0 < i < k ==> p.react(read[..i]).Emit?
  }

  ghost predicate Halts(p: Process, read: seq<Value>) {
    exists k: nat :: HaltsAt(p, read, k)
  }

  /** The values of its reactions to the first n histories, one after another. */
  function Poured(p: Process, read: seq<Value>, n: nat): seq<Value>
    requires n <= |read|
  {
    if n == 0 then [] else Poured(p, read, n - 1) + p.react(read[..n]).vals
  }

  /** How a reaction leaves its stage. */
  function Ending(r: Reaction, otherwise: Status): Status {
    if r.Fail? then Failed(r.err) else if r.Stop? then Ended else otherwise
  }

  /** All it emits on what it has read, and how it then stands: every reaction's values up to
      and including the one that stops or fails; and if none does and the end has come, those
      of its finish. */
  ghost function Emission(p: Process, read: seq<Value>, closed: bool): Outcome {
    if Halts(p, read) then
      var k: nat :| HaltsAt(p, read, k);
      Outcome(Poured(p, read, k), Ending(p.react(read[..k]), Open))
    else if closed then
      Outcome(Poured(p, read, |read|) + p.finish(read).vals, Ending(p.finish(read), Ended))
    else
      Outcome(Poured(p, read, |read|), Open)
  }

  lemma {:induction false} PouredFront(p: Process, read: seq<Value>, m: nat, n: nat)
    requires n <= m <= |read|
    ensures Poured(p, read[..m], n) == Poured(p, read, n)
  {
    if n > 0 {
      PouredFront(p, read, m, n - 1);
      assert read[..m][..n] == read[..n];
    }
  }

  lemma HaltsInFront(p: Process, read: seq<Value>, k: nat)
    requires read != []
    ensures k < |read| ==> (HaltsAt(p, read[..|read| - 1], k) <==> HaltsAt(p, read, k))
  {
    var front := read[..|read| - 1];
    assert forall i :: 0 <= i <= |front| ==> front[..i] == read[..i];
  }

  /** It halts at most once. */
  lemma OneHalt(p: Process, read: seq<Value>, j: nat, k: nat)
    requires HaltsAt(p, read, j) && HaltsAt(p, read, k)
    ensures j == k
  {
  }

  lemma {:induction false} ReadingIsEmission(p: Process, read: seq<Value>)
    ensures Reading(p, read) == Emission(p, read, false)
  {
    if read != [] {
      var n := |read| - 1;
      var front := read[..n];
      ReadingIsEmission(p, front);
      assert read[..n + 1] == read;
      PouredFront(p, read, n, n);
      if Halts(p, front) {
        var k: nat :| HaltsAt(p, front, k);
        HaltsInFront(p, read, k);
        OneHaltAt(p, front, k);
        OneHaltAt(p, read, k);
        PouredFront(p, read, n, k);
        assert front[..k] == read[..k];
      } else {
        LastDecides(p, read);
      }
    }
  }

  lemma OneHaltAt(p: Process, read: seq<Value>, k: nat)
    requires HaltsAt(p, read, k)
    ensures forall closed :: Emission(p, read, closed) == Outcome(Poured(p, read, k), Ending(p.react(read[..k]), Open))
  {
    forall j | HaltsAt(p, read, j)
      ensures j == k
    {
      OneHalt(p, read, j, k);
    }
  }

  /** When the values before it did not halt it, the last one read decides. */
  lemma LastDecides(p: Process, read: seq<Value>)
    requires read != [] && !Halts(p, read[..|read| - 1])
    ensures Halts(p, read) <==> !p.react(read).Emit?
    ensures Halts(p, read) ==> HaltsAt(p, read, |read|) && Emission(p, read, false) == Outcome(Poured(p, read, |read|), Ending(p.react(read), Open))
  {
    var front := read[..|read| - 1];
    forall k: nat | k < |read|
      ensures !HaltsAt(p, read, k)
    {
      HaltsInFront(p, read, k);
    }
    NoHaltBefore(p, front, |front|);
    assert forall i :: 0 < i <= |front| ==> front[..i] == read[..i];
    assert read[..|read|] == read;
    if !p.react(read).Emit? {
      assert HaltsAt(p, read, |read|);
      OneHaltAt(p, read, |read|);
    }
  }

  /** A stage that does not halt keeps emitting. */
  lemma {:induction false} NoHaltBefore(p: Process, read: seq<Value>, n: nat)
    requires n <= |read| && !Halts(p, read)
    ensures forall i :: 0 < i <= n ==> p.react(read[..i]).Emit?
  {
    if n > 0 {
      NoHaltBefore(p, read, n - 1);
      assert !HaltsAt(p, read, n);
    }
  }

  lemma ClosedIsEmission(p: Process, read: seq<Value>)
    ensures Closed(p, read) == Emission(p, read, true)
  {
    ReadingIsEmission(p, read);
    if Halts(p, read) {
      var k: nat :| HaltsAt(p, read, k);
      OneHaltAt(p, read, k);
    }
  }

  // ---------------------------------------------------------------- in the executor

  /** In every state a run reaches, what a stage has handed on and what it holds ready are
      what it emits on what it has read, nothing more and nothing else; cut short only for a
      stage that lags and has failed, which loses the batch it had. */
  lemma StagesEmit(line: Line, s: State, i: nat)
    requires line.Size() > 0 && Reachable(line, s) && i < line.Size()
    ensures Shaped(line, s)
    ensures var p, l := line.stages[i], s.locals[i];
            var d := Emission(p, l.hist, l.sawEnd);
            && l.sent + l.out <= d.vals
            && (l.sent + l.out == d.vals || (p.lags && d.status.Failed? && l.out == []))
  {
    var acts :| Execute(line, Initial(line), acts) == Some(s);
    RunKeeps(line, acts);
    hide Reachable, Execute, Shared;
    var p, l := line.stages[i], s.locals[i];
    assert StageOk(line, i, l);
    ReadingIsEmission(p, l.hist);
    ClosedIsEmission(p, l.hist);
  }

  /** A stage that has returned nil has handed on all it emits, and that ended well; one that
      has failed itself, and lost nothing by lagging, has handed on all it emits unless it was
      cancelled in the middle of doing so. */
  lemma ReturnedStages(line: Line, s: State, i: nat)
    requires line.Size() > 0 && Reachable(line, s) && i < line.Size() && s.locals[i].ret != NotYet
    ensures Shaped(line, s)
    ensures var p, l := line.stages[i], s.locals[i];
            var d := Emission(p, l.hist, l.sawEnd);
            && (l.ret == Fine ==> d == Outcome(l.sent, Ended))
            && (l.ret == Bad && !p.lags && l.out == [] ==> l.sent == d.vals)
  {
    StagesEmit(line, s, i);
    var acts :| Execute(line, Initial(line), acts) == Some(s);
    RunKeeps(line, acts);
    hide Reachable, Execute, Shared, Emission;
    var p, l := line.stages[i], s.locals[i];
    assert StageOk(line, i, l);
    ReadingIsEmission(p, l.hist);
    ClosedIsEmission(p, l.hist);
    assert l.out == [] ==> l.sent + l.out == l.sent;
  }

  /** What one value read adds: all the values of the reaction to it, behind those that wait;
      but a value that fails behind others of its batch takes them with it. */
  lemma ReadTakes(line: Line, s: State, i: nat)
    requires Shaped(line, s) && 0 < i < line.Size() && s.chans[i - 1] != [] && Reads(s.locals[i])
    ensures var l, l' := s.locals[i], Read(line, s, i, s.locals[i]).locals[i];
            var r := line.stages[i].react(l.hist + [s.chans[i - 1][0]]);
            && l'.hist == l.hist + [s.chans[i - 1][0]] && l'.sent == l.sent
            && l'.out == (if r.Fail? && l.out != [] then [] else l.out + r.vals)
            && l'.ending == if r.Fail? then Some(Some(r.err)) else if r.Stop? then Some(None) else None
    ensures Read(line, s, i, s.locals[i]).chans[i - 1] == s.chans[i - 1][1..]
  {
    assert s.locals[i].out == [] ==> [] + line.stages[i].react(s.locals[i].hist + [s.chans[i - 1][0]]).vals == line.stages[i].react(s.locals[i].hist + [s.chans[i - 1][0]]).vals;
  }

  /** A stage sends as long as fewer than 64 values wait below it, and what it sends is its
      oldest value, behind those. */
  lemma SendsUntilFull(line: Line, s: State, i: nat)
    requires Shaped(line, s) && i + 1 < line.Size() && s.locals[i].pc == Running && s.locals[i].out != []
    ensures Enabled(line, s, Go(i)) <==> |s.chans[i]| < 64
    ensures Enabled(line, s, Go(i)) ==>
              var t := Apply(line, s, Go(i));
              && t.chans[i] == s.chans[i] + [s.locals[i].out[0]]
              && t.locals[i].out == s.locals[i].out[1..] && t.locals[i].sent == s.locals[i].sent + [s.locals[i].out[0]]
  {
  }

  // ---------------------------------------------------------------- the line

  /** What stage i makes of what the stage above it emitted. */
  ghost function Stage(line: Line, i: nat, above: Outcome): Outcome
    requires i < line.Size()
  {
    var p := line.stages[i];
    if p.setup.Some? then Outcome([], Failed(p.setup.value)) else Emission(p, above.vals, above.status == Ended)
  }

  /** outs are the stages' emissions, each over all that the one above emits; the source has
      been asked k times. */
  ghost predicate Flows(line: Line, k: nat, outs: seq<Outcome>) {
    && |outs| == line.Size() > 0
    && outs[0] == Stage(line, 0, Outcome(Ticks(k), Open))
    && forall i :: 0 < i < line.Size() ==> outs[i] == Stage(line, i, outs[i - 1])
  }

  lemma {:induction false} SequentialFlows(line: Line, i: nat, k: nat, outs: seq<Outcome>)
    requires Flows(line, k, outs) && i < line.Size()
    ensures Sequential(line, i, k) == outs[i]
  {
    var p := line.stages[i];
    if i > 0 {
      SequentialFlows(line, i - 1, k, outs);
      ReadingIsEmission(p, outs[i - 1].vals);
      ClosedIsEmission(p, outs[i - 1].vals);
    } else {
      ReadingIsEmission(p, Ticks(k));
    }
  }

  lemma {:induction false} SomethingFlows(line: Line, k: nat, n: nat) returns (outs: seq<Outcome>)
    requires 0 < n <= line.Size()
    ensures |outs| == n && outs[0] == Stage(line, 0, Outcome(Ticks(k), Open))
    ensures forall i :: 0 < i < n ==> outs[i] == Stage(line, i, outs[i - 1])
  {
    if n == 1 {
      outs := [Stage(line, 0, Outcome(Ticks(k), Open))];
    } else {
      outs := SomethingFlows(line, k, n - 1);
      outs := outs + [Stage(line, n - 1, outs[n - 2])];
    }
  }

  /** A line that returns nil has collected what its last stage emits, the stages taken one
      after another by their reactions alone. */
  lemma NilMeansEmissions(line: Line, s: State) returns (k: nat, outs: seq<Outcome>)
    requires line.Size() > 0 && Reachable(line, s) && !s.own
    requires Shaped(line, s) && s.locals[line.Size() - 1].pc == Over(None)
    ensures Flows(line, k, outs) && outs[line.Size() - 1] == Outcome(Collected(s), Ended)
  {
    NilMeansComposition(line, s);
    hide Reachable, Stage;
    k :| Whole(line, k) == Outcome(Collected(s), Ended);
    outs := SomethingFlows(line, k, line.Size());
    SequentialFlows(line, line.Size() - 1, k, outs);
  }

  /** And one that fails on its own has failed as a stage so taken does. */
  lemma FailureIsAnEmission(line: Line, s: State, f: Failure) returns (k: nat, outs: seq<Outcome>)
    requires line.Size() > 0 && Reachable(line, s) && !s.own && !s.parent
    requires Shaped(line, s) && s.locals[line.Size() - 1].pc == Over(Some(f))
    ensures f.stage < line.Size() && Flows(line, k, outs) && outs[f.stage].status == Failed(f.err)
  {
    FailureIsOwn(line, s, f);
    hide Reachable, Stage;
    k :| Sequential(line, f.stage, k).status == Failed(f.err);
    outs := SomethingFlows(line, k, line.Size());
    SequentialFlows(line, f.stage, k, outs);
  }
}
