/** What every run of the pipeline executor keeps. */
module PipelineSafety {
  import opened Wrappers
  import opened Pipeline

  // ---------------------------------------------------------------- reading more never takes back

  /** a is what a stage has done so far towards b. */
  predicate Towards(a: Outcome, b: Outcome) {
    if a.status == Open then a.vals <= b.vals else a == b
  }

  lemma {:induction false} ReadingGrows(p: Process, a: seq<Value>, b: seq<Value>)
    requires a <= b
    ensures Towards(Reading(p, a), Reading(p, b))
    decreases |b|
  {
    if a == b {
    } else {
      var front := b[..|b| - 1];
      assert a <= front;
      ReadingGrows(p, a, front);
    }
  }

  lemma ReadingSnoc(p: Process, a: seq<Value>, v: Value)
    ensures Reading(p, a + [v]) == var o := Reading(p, a); if o.status == Open then Then(o, p.react(a + [v]), Open) else o
  {
    assert (a + [v])[..|a|] == a;
  }

  // ---------------------------------------------------------------- the invariant, stage by stage

  /** What a stage has done, judged from what it has read. */
  function Done(p: Process, l: Local): Outcome {
    if l.sawEnd then Closed(p, l.hist) else Reading(p, l.hist)
  }

  /** The errors a stage can return that are its own. */
  ghost predicate IsOwn(line: Line, i: nat, e: Err) {
    && i < line.Size()
    && (line.stages[i].setup == Some(e) || FailsWith(line.stages[i], e))
  }

  ghost predicate FailsWith(p: Process, e: Err) {
    exists h :: Reading(p, h).status == Failed(e) || Closed(p, h).status == Failed(e)
  }

  /** A stage has failed with e, over what it has read. */
  predicate FailedItself(p: Process, l: Local, e: Err) {
    p.setup == Some(e) || Done(p, l).status == Failed(e)
  }

  /** In the composition stage i fails with e. */
  ghost predicate FailsAt(line: Line, i: nat, e: Err) {
    i < line.Size() && exists k: nat :: Sequential(line, i, k).status == Failed(e)
  }

  /** No stage's own error is context.Canceled. */
  ghost predicate NoOwnCancellation(line: Line) {
    forall i :: 0 <= i < line.Size() ==> !IsOwn(line, i, Canceled)
  }

  predicate ProducerPc(pc: Pc) { !pc.Shutting? && !pc.Joining? && !pc.Over? }

  predicate LastPc(pc: Pc) { pc.Init? || pc.Ready? || pc.Running? || pc.Recording? || pc.Shutting? || pc.Joining? || pc.Over? }

  /** What it has handed on, with what waits to be, is all it has emitted so far; but a stage
      that lags may have lost a batch to the value that failed. */
  predicate Handed(p: Process, l: Local) {
    var d := Done(p, l);
    && l.sent + l.out <= d.vals
    && (l.sent + l.out == d.vals || (p.lags && l.out == [] && l.ending.Some? && l.ending.value.Some?))
  }

  /** One stage against its own process. */
  ghost predicate StageOk(line: Line, i: nat, l: Local)
    requires i < line.Size()
  {
    var p := line.stages[i];
    var d := Done(p, l);
    && (if line.IsLast(i) then LastPc(l.pc) else ProducerPc(l.pc))
    && (i == 0 ==> !l.sawEnd && l.hist == Ticks(|l.hist|))
    && (l.pc == Init || l.pc == Ready ==> l.hist == [] && l.sent == [] && l.out == [] && l.ending == None && !l.sawEnd && l.ret == NotYet)
    && (l.hist != [] || l.sawEnd || l.pc in {Ready, Running} ==> p.setup == None)
    && Handed(p, l)
    && d.status == (match l.ending
                    case None => Open
                    case Some(None) => Ended
                    case Some(Some(e)) => Failed(e))
    && (l.pc == Running ==> l.ret == NotYet)
    && (l.ret == Fine ==> d == Outcome(l.sent, Ended) && p.setup == None)
    && (l.ret == NotYet <==> l.pc in {Init, Ready, Running})
    && (l.pc.Recording? || l.pc == Cancelling ==> l.ret == Bad)
    && (!line.IsLast(i) ==>
          && (l.sent != [] || l.pc in {Running, Closing, Leaving, Gone} ==> l.reported)
          && (l.reported ==> l.pc !in {Init, Ready}))
    && (l.pc.Recording? && l.pc.err != Canceled ==> FailedItself(p, l, l.pc.err))
    && (l.pc.Shutting? || l.pc.Joining? ==> (l.pc.last.Some? <==> l.ret == Bad))
  }

  /** Two neighbours and the channel between them: nothing is lost, nothing repeated. */
  predicate LinkOk(up: Local, q: seq<Value>, down: Local) {
    && up.sent == down.hist + q
    && |q| <= STAGE_BUFFER
    && (down.sawEnd ==> q == [] && up.Shut())
  }

  /** The line has not been told to shut down by its caller or its last stage, and none of
      its stages has made up a cancellation of its own. */
  predicate Quiet(line: Line, s: State)
    requires Shaped(line, s)
  {
    var last := s.locals[line.Size() - 1].pc;
    !s.own && !s.parent && !last.Joining? && !last.Over?
  }

  predicate OwnFirst(first: Option<Failure>) {
    first.Some? && first.value.err != Canceled
  }

  /** One stage against the shared latch: a failing stage records before it cancels, and
      cancels before it closes. */
  predicate Blame(l: Local, first: Option<Failure>, quiet: bool) {
    && (l.ret == Bad && !l.pc.Recording? ==> first.Some?)
    && (quiet && l.pc == Recording(Canceled) ==> first.Some?)
  }

  ghost predicate Shared(line: Line, s: State)
    requires Shaped(line, s)
  {
    var last := s.locals[line.Size() - 1];
    var quiet := Quiet(line, s);
    && (last.pc.Joining? || last.pc.Over? ==> s.cancelled)
    && (s.own ==> !NoOwnCancellation(line))
    && (!s.own ==>
    && (quiet && s.cancelled ==> s.first.Some?)
    && (quiet && s.first.Some? ==> OwnFirst(s.first))
    && (OwnFirst(s.first) ==> FailsAt(line, s.first.value.stage, s.first.value.err))
    && ((last.pc.Shutting? || last.pc.Joining?) && last.pc.last.Some? && !s.parent ==> OwnFirst(s.first))
    && (last.ret == Fine ==> Computes(line, last.sent) || OwnFirst(s.first) || (s.first.Some? && s.parent))
    && (last.pc.Over? ==>
          match last.pc.result
          case None => Computes(line, last.sent)
          case Some(f) => s.first == Some(f) && (s.parent || f.err != Canceled)))
  }

  ghost predicate Inv(line: Line, s: State) {
    && Shaped(line, s)
    && (forall i :: 0 <= i < |s.locals| ==> StageOk(line, i, s.locals[i]) && Blame(s.locals[i], s.first, Quiet(line, s)))
    && (forall i :: 0 <= i < |s.chans| ==> LinkOk(s.locals[i], s.chans[i], s.locals[i + 1]))
    && Shared(line, s)
  }

  lemma InitialInv(line: Line)
    requires line.Size() > 0
    ensures Inv(line, Initial(line))
  {
  }

  // ---------------------------------------------------------------- the stages together

  lemma ClosedAfter(p: Process, a: seq<Value>)
    ensures Towards(Reading(p, a), Closed(p, a))
  {
  }

  /** While no failure is recorded, every stage is on its way to what the composition says. */
  lemma {:induction false} OnCourse(line: Line, s: State, i: nat)
    requires Inv(line, s) && s.first == None && i < line.Size()
    ensures Towards(Done(line.stages[i], s.locals[i]), Sequential(line, i, |s.locals[0].hist|))
  {
    hide Closed, Shared, IsOwn, Computes;
    var p, l, k := line.stages[i], s.locals[i], |s.locals[0].hist|;
    assert StageOk(line, i, l);
    if p.setup.Some? || i == 0 {
    } else {
      var up, above := s.locals[i - 1], Sequential(line, i - 1, k);
      OnCourse(line, s, i - 1);
      assert StageOk(line, i - 1, up) && Blame(up, s.first, Quiet(line, s));
      assert LinkOk(up, s.chans[i - 1], s.locals[i]);
      if l.sawEnd {
        assert up.ret == Fine && l.hist == up.sent;
        assert above == Outcome(l.hist, Ended);
      } else {
        assert l.hist <= above.vals by {
          var d := Done(line.stages[i - 1], up);
          assert l.hist <= up.sent <= d.vals <= above.vals;
        }
        ReadingGrows(p, l.hist, above.vals);
        ClosedAfter(p, above.vals);
      }
    }
  }

  /** So when the last stage returns nil before any failure is recorded, what it handed
      over is the composition's result. */
  lemma LastIsWhole(line: Line, s: State)
    requires Inv(line, s) && s.first == None
    requires var l := s.locals[line.Size() - 1]; l.pc == Running && l.out == [] && l.ending == Some(None)
    ensures Computes(line, s.locals[line.Size() - 1].sent)
  {
    var n := line.Size() - 1;
    var l := s.locals[n];
    OnCourse(line, s, n);
    assert StageOk(line, n, l);
    assert l.sent + [] == l.sent;
    assert Done(line.stages[n], l) == Outcome(l.sent, Ended);
    assert Whole(line, |s.locals[0].hist|) == Outcome(l.sent, Ended);
  }

  /** And the first stage that fails does so in the composition too. */
  lemma FirstFailure(line: Line, s: State, i: nat)
    requires Inv(line, s) && s.first == None && i < line.Size()
    requires s.locals[i].pc.Recording? && s.locals[i].pc.err != Canceled
    ensures FailsAt(line, i, s.locals[i].pc.err)
  {
    var l, k := s.locals[i], |s.locals[0].hist|;
    assert StageOk(line, i, l);
    OnCourse(line, s, i);
    hide StageOk, Shared, Reading, Closed;
    assert Sequential(line, i, k).status == Failed(l.pc.err) by {
      hide Inv;
    }
  }

  // ---------------------------------------------------------------- one step keeps it

  /** It is enough to look at the stage that moved, its two channels and the shared part. */
  lemma Frame(line: Line, s: State, s': State, i: nat)
    requires Inv(line, s) && Shaped(line, s') && i < line.Size()
    requires forall k :: 0 <= k < line.Size() && k != i ==> s'.locals[k] == s.locals[k]
    requires forall k :: 0 <= k < line.Size() - 1 && k != i && k != i - 1 ==> s'.chans[k] == s.chans[k]
    requires StageOk(line, i, s'.locals[i]) && Blame(s'.locals[i], s'.first, Quiet(line, s'))
    requires i > 0 ==> LinkOk(s.locals[i - 1], s'.chans[i - 1], s'.locals[i])
    requires i < line.Size() - 1 ==> LinkOk(s'.locals[i], s'.chans[i], s.locals[i + 1])
    requires s.first.Some? ==> s'.first == s.first
    requires Quiet(line, s') ==> Quiet(line, s)
    requires Shared(line, s')
    ensures Inv(line, s')
  {
    hide StageOk, LinkOk, Shared;
    forall k | 0 <= k < |s'.locals|
      ensures StageOk(line, k, s'.locals[k]) && Blame(s'.locals[k], s'.first, Quiet(line, s'))
    {
      assert k != i ==> StageOk(line, k, s.locals[k]) && Blame(s.locals[k], s.first, Quiet(line, s));
    }
    forall k | 0 <= k < |s'.chans|
      ensures LinkOk(s'.locals[k], s'.chans[k], s'.locals[k + 1])
    {
      assert k != i && k != i - 1 ==> LinkOk(s.locals[k], s.chans[k], s.locals[k + 1]);
    }
  }

  /** Moves inside a stage that leave the shared part alone. */
  lemma SharedKept(line: Line, s: State, s': State, i: nat)
    requires Inv(line, s) && Shaped(line, s') && i < line.Size()
    requires forall k :: 0 <= k < line.Size() && k != i ==> s'.locals[k] == s.locals[k]
    requires s'.first == s.first && s'.cancelled == s.cancelled && s'.parent == s.parent && s'.own == s.own
    requires line.IsLast(i) ==>
               var l, l' := s.locals[i], s'.locals[i];
               l'.ret != Fine && !l.pc.Shutting? && !l.pc.Joining? && !l.pc.Over? && !l'.pc.Shutting? && !l'.pc.Joining? && !l'.pc.Over?
    ensures Shared(line, s') && Quiet(line, s') == Quiet(line, s)
  {
    hide Computes;
  }

  lemma ReadOk(line: Line, i: nat, l: Local, v: Value)
    requires i < line.Size() && StageOk(line, i, l) && Reads(l) && (i == 0 ==> v == "")
    requires !l.sawEnd && (l.out == [] || line.stages[i].lags)
    ensures var l' := l.(hist := l.hist + [v]);
            StageOk(line, i, Absorb(l', line.stages[i].react(l'.hist), false))
  {
    hide IsOwn;
    ReadingSnoc(line.stages[i], l.hist, v);
    assert l.sent + [] == l.sent;
    var r := line.stages[i].react(l.hist + [v]);
    Associate(l.sent, l.out, r.vals);
  }

  lemma EndOk(line: Line, i: nat, l: Local)
    requires 0 < i < line.Size() && StageOk(line, i, l) && CanRead(l)
    ensures var l' := l.(sawEnd := true);
            !l.sawEnd && StageOk(line, i, Absorb(l', line.stages[i].finish(l'.hist), true))
  {
    hide IsOwn;
    assert l.sent + [] == l.sent;
  }

  lemma ReadKeeps(line: Line, s: State, i: nat)
    requires Inv(line, s) && i < line.Size() && Reads(s.locals[i])
    requires CanRead(s.locals[i]) || (i > 0 && s.chans[i - 1] != [] && line.stages[i].lags)
    requires i == 0 || s.chans[i - 1] != [] || s.locals[i - 1].Shut()
    ensures Inv(line, Read(line, s, i, s.locals[i]))
  {
    var l, s' := s.locals[i], Read(line, s, i, s.locals[i]);
    assert StageOk(line, i, l) && Blame(l, s.first, Quiet(line, s));
    StillReading(line, i, l);
    ReadLinks(line, s, i);
    if !line.IsLast(i) {
      assert LinkOk(l, s.chans[i], s.locals[i + 1]);
    }
    ReadMoves(line, s, i);
    hide StageOk, Shared, Read;
    SharedKept(line, s, s', i);
    Frame(line, s, s', i);
  }

  /** All that reading leaves alone. */
  lemma ReadMoves(line: Line, s: State, i: nat)
    requires Shaped(line, s) && i < line.Size() && Reads(s.locals[i])
    requires i == 0 || s.chans[i - 1] != [] || s.locals[i - 1].Shut()
    ensures var s' := Read(line, s, i, s.locals[i]);
            && s'.first == s.first && s'.cancelled == s.cancelled && s'.parent == s.parent && s'.own == s.own
            && (forall k :: 0 <= k < line.Size() && k != i ==> s'.locals[k] == s.locals[k])
            && (forall k :: 0 <= k < line.Size() - 1 && k != i - 1 ==> s'.chans[k] == s.chans[k])
            && s'.locals[i].pc == Running && s'.locals[i].ret == s.locals[i].ret && s'.locals[i].sent == s.locals[i].sent
  {
  }

  /** The stage that reads, and its channel. */
  lemma ReadLinks(line: Line, s: State, i: nat)
    requires Inv(line, s) && i < line.Size() && Reads(s.locals[i])
    requires CanRead(s.locals[i]) || (i > 0 && s.chans[i - 1] != [] && line.stages[i].lags)
    requires i == 0 || s.chans[i - 1] != [] || s.locals[i - 1].Shut()
    ensures var s' := Read(line, s, i, s.locals[i]);
            && StageOk(line, i, s'.locals[i])
            && (i > 0 ==> LinkOk(s.locals[i - 1], s'.chans[i - 1], s'.locals[i]))
  {
    hide StageOk, Shared;
    var l := s.locals[i];
    assert StageOk(line, i, l);
    StillReading(line, i, l);
    if i == 0 {
      ReadOk(line, i, l, "");
    } else {
      assert LinkOk(s.locals[i - 1], s.chans[i - 1], l);
      if s.chans[i - 1] != [] {
        var v := s.chans[i - 1][0];
        ReadOk(line, i, l, v);
        assert l.hist + s.chans[i - 1] == (l.hist + [v]) + s.chans[i - 1][1..];
      } else {
        EndOk(line, i, l);
      }
    }
  }

  /** A stage that still reads has not seen the end, and has not returned. */
  lemma StillReading(line: Line, i: nat, l: Local)
    requires i < line.Size() && StageOk(line, i, l) && Reads(l)
    ensures !l.sawEnd && l.ret == NotYet
  {
  }

  lemma HandOnKeeps(line: Line, s: State, i: nat)
    requires Inv(line, s) && i < line.Size() && s.locals[i].pc == Running && s.locals[i].out != []
    requires line.IsLast(i) || |s.chans[i]| < STAGE_BUFFER
    ensures Inv(line, HandOn(line, s, i, s.locals[i]))
  {
    var l, s' := s.locals[i], HandOn(line, s, i, s.locals[i]);
    assert StageOk(line, i, l) && Blame(l, s.first, Quiet(line, s));
    HandOnOk(line, i, l);
    if i > 0 {
      assert LinkOk(s.locals[i - 1], s.chans[i - 1], l);
    }
    if !line.IsLast(i) {
      assert LinkOk(l, s.chans[i], s.locals[i + 1]);
      assert s.locals[i + 1].hist + (s.chans[i] + [l.out[0]]) == l.sent + [l.out[0]];
    }
    hide StageOk, Shared;
    SharedKept(line, s, s', i);
    Frame(line, s, s', i);
  }

  lemma HandOnOk(line: Line, i: nat, l: Local)
    requires i < line.Size() && StageOk(line, i, l) && l.pc == Running && l.out != []
    ensures l.ret == NotYet && StageOk(line, i, l.(out := l.out[1..], sent := l.sent + [l.out[0]]))
  {
    var l' := l.(out := l.out[1..], sent := l.sent + [l.out[0]]);
    assert Done(line.stages[i], l') == Done(line.stages[i], l);
    hide Done, IsOwn;
    assert l.sent + l.out == l'.sent + l'.out;
  }

  /** A stage that only changes where it stands: nothing it has read or handed on moves. */
  lemma Moves(line: Line, s: State, s': State, i: nat)
    requires Inv(line, s) && Shaped(line, s') && i < line.Size() && s'.chans == s.chans
    requires forall k :: 0 <= k < line.Size() && k != i ==> s'.locals[k] == s.locals[k]
    requires var l, l' := s.locals[i], s'.locals[i];
             l'.hist == l.hist && l'.sent == l.sent && l'.sawEnd == l.sawEnd && (l.Shut() ==> l'.Shut())
    requires StageOk(line, i, s'.locals[i]) && Blame(s'.locals[i], s'.first, Quiet(line, s'))
    requires s.first.Some? ==> s'.first == s.first
    requires Quiet(line, s') ==> Quiet(line, s)
    requires Shared(line, s')
    ensures Inv(line, s')
  {
    hide StageOk, Shared, Quiet, Blame;
    if i > 0 {
      assert LinkOk(s.locals[i - 1], s.chans[i - 1], s.locals[i]);
    }
    if i < line.Size() - 1 {
      assert LinkOk(s.locals[i], s.chans[i], s.locals[i + 1]);
    }
    Frame(line, s, s', i);
  }

  /** A stage that fails of its own accord. */
  lemma FailsKeeps(line: Line, s: State, i: nat, e: Err)
    requires Inv(line, s) && i < line.Size() && IsOwn(line, i, e)
    requires StageOk(line, i, s.locals[i].(pc := Recording(e), ret := Bad)) && s.locals[i].ret == NotYet
    ensures Inv(line, Fails(s, i, s.locals[i], e))
  {
    var l, s' := s.locals[i], Fails(s, i, s.locals[i], e);
    assert StageOk(line, i, l) && Blame(l, s.first, Quiet(line, s));
    if e == Canceled {
      assert Shared(line, s') by {
        hide StageOk, LinkOk, Computes, IsOwn, OwnFirst;
      }
      hide Shared, StageOk, LinkOk, IsOwn;
      Moves(line, s, s', i);
    } else {
      hide StageOk, Shared, LinkOk, IsOwn;
      SharedKept(line, s, s', i);
      Moves(line, s, s', i);
    }
  }

  lemma PrepareOk(line: Line, i: nat, l: Local)
    requires i < line.Size() && StageOk(line, i, l)
    ensures l.pc == Ready ==> StageOk(line, i, l.(pc := Running, reported := !line.IsLast(i)))
    ensures l.pc == Init && line.stages[i].setup == None ==> StageOk(line, i, l.(pc := Ready))
    ensures l.pc == Init && line.stages[i].setup.Some? ==>
              StageOk(line, i, l.(pc := Recording(line.stages[i].setup.value), ret := Bad)) && IsOwn(line, i, line.stages[i].setup.value)
    ensures l.pc in {Init, Ready} ==> l.ret == NotYet
  {
    hide FailsWith;
  }

  lemma PrepareKeeps(line: Line, s: State, i: nat)
    requires Inv(line, s) && i < line.Size() && s.locals[i].pc in {Init, Ready}
    requires CanGo(line, s, i, s.locals[i])
    ensures Inv(line, Step(line, s, i, s.locals[i]))
  {
    var l, s' := s.locals[i], Step(line, s, i, s.locals[i]);
    assert StageOk(line, i, l) && Blame(l, s.first, Quiet(line, s));
    PrepareOk(line, i, l);
    hide StageOk, Shared, IsOwn;
    if l.pc == Init && line.stages[i].setup.Some? {
      hide Blame, LinkOk;
      FailsKeeps(line, s, i, line.stages[i].setup.value);
    } else {
      SharedKept(line, s, s', i);
      Moves(line, s, s', i);
    }
  }

  lemma ReturnOk(line: Line, i: nat, l: Local)
    requires i < line.Size() && StageOk(line, i, l) && l.pc == Running && l.out == [] && l.ending.Some?
    ensures l.ret == NotYet
    ensures l.ending.value.None? ==>
              StageOk(line, i, l.(pc := if line.IsLast(i) then Shutting(None) else Reporting, ret := Fine))
    ensures l.ending.value.Some? ==>
              StageOk(line, i, l.(pc := Recording(l.ending.value.value), ret := Bad)) && IsOwn(line, i, l.ending.value.value)
  {
    assert l.sent + [] == l.sent;
    if l.ending.value.Some? {
      assert FailsWith(line.stages[i], l.ending.value.value);
    }
  }

  lemma ReturnKeeps(line: Line, s: State, i: nat)
    requires Inv(line, s) && i < line.Size()
    requires var l := s.locals[i]; l.pc == Running && l.out == [] && l.ending.Some?
    ensures Inv(line, Returning(s, i, s.locals[i], line.IsLast(i)))
  {
    var l := s.locals[i];
    assert StageOk(line, i, l) && Blame(l, s.first, Quiet(line, s));
    ReturnOk(line, i, l);
    if l.ending.value.Some? {
      hide StageOk, Shared, LinkOk, IsOwn, Blame;
      FailsKeeps(line, s, i, l.ending.value.value);
    } else if line.IsLast(i) {
      hide StageOk, Shared, LinkOk, IsOwn, Blame;
      LastReturnKeeps(line, s, i);
    } else {
      hide StageOk, Shared, LinkOk;
      var s' := Returning(s, i, l, false);
      SharedKept(line, s, s', i);
      Moves(line, s, s', i);
    }
  }

  lemma LastReturnKeeps(line: Line, s: State, i: nat)
    requires Inv(line, s) && line.IsLast(i)
    requires var l := s.locals[i]; l.pc == Running && l.out == [] && l.ending == Some(None)
    ensures Inv(line, Returning(s, i, s.locals[i], true))
  {
    var l, s' := s.locals[i], Returning(s, i, s.locals[i], true);
    assert StageOk(line, i, l) && Blame(l, s.first, Quiet(line, s));
    ReturnOk(line, i, l);
    if s.first == None {
      LastIsWhole(line, s);
    }
    hide StageOk, Computes, Reading, Closed;
    assert Quiet(line, s') == Quiet(line, s);
    Moves(line, s, s', i);
  }

  /** The latch: in a quiet line the first error recorded is a stage's own. */
  lemma RecordKeeps(line: Line, s: State, i: nat)
    requires Inv(line, s) && i < line.Size() && s.locals[i].pc.Recording?
    ensures Inv(line, Step(line, s, i, s.locals[i]))
  {
    var l, s' := s.locals[i], Step(line, s, i, s.locals[i]);
    assert StageOk(line, i, l) && Blame(l, s.first, Quiet(line, s));
    assert Quiet(line, s') == Quiet(line, s);
    if s.first == None && l.pc.err != Canceled {
      FirstFailure(line, s, i);
    }
    hide FailsAt, Computes, LinkOk, Done;
    Moves(line, s, s', i);
  }

  lemma LeaveOk(line: Line, i: nat, l: Local)
    requires i < line.Size() && StageOk(line, i, l)
    ensures l.pc == Cancelling ==> StageOk(line, i, l.(pc := Reporting))
    ensures l.pc == Reporting ==> StageOk(line, i, l.(pc := Closing, reported := true))
    ensures l.pc == Closing ==> StageOk(line, i, l.(pc := Leaving))
    ensures l.pc == Leaving ==> StageOk(line, i, l.(pc := Gone))
    ensures l.pc in {Cancelling, Reporting, Closing, Leaving} ==> !line.IsLast(i)
  {
    hide Closed, Reading, IsOwn;
  }

  lemma LeaveKeeps(line: Line, s: State, i: nat)
    requires Inv(line, s) && i < line.Size() && s.locals[i].pc in {Cancelling, Reporting, Closing, Leaving}
    ensures Inv(line, Step(line, s, i, s.locals[i]))
  {
    var l, s' := s.locals[i], Step(line, s, i, s.locals[i]);
    assert StageOk(line, i, l) && Blame(l, s.first, Quiet(line, s));
    LeaveOk(line, i, l);
    hide StageOk, Computes;
    assert Shared(line, s') && Quiet(line, s') == Quiet(line, s);
    Moves(line, s, s', i);
  }

  lemma FinishKeeps(line: Line, s: State, i: nat)
    requires Inv(line, s) && i < line.Size() && (s.locals[i].pc.Shutting? || s.locals[i].pc.Joining?)
    requires CanGo(line, s, i, s.locals[i])
    ensures Inv(line, Step(line, s, i, s.locals[i]))
  {
    var l, s' := s.locals[i], Step(line, s, i, s.locals[i]);
    assert StageOk(line, i, l) && Blame(l, s.first, Quiet(line, s));
    assert Shared(line, s') by {
      hide Computes;
    }
    Moves(line, s, s', i);
  }

  lemma GiveUpKeeps(line: Line, s: State, i: nat)
    requires Inv(line, s) && Enabled(line, s, GiveUp(i))
    ensures Inv(line, Apply(line, s, GiveUp(i)))
  {
    var l, s' := s.locals[i], Apply(line, s, GiveUp(i));
    assert StageOk(line, i, l) && Blame(l, s.first, Quiet(line, s));
    SharedKept(line, s, s', i);
    Moves(line, s, s', i);
  }

  lemma CallerKeeps(line: Line, s: State)
    requires Inv(line, s)
    ensures Inv(line, s.(parent := true))
  {
    var s' := s.(parent := true);
    hide StageOk, LinkOk, Computes;
    forall i | 0 <= i < |s'.locals|
      ensures StageOk(line, i, s'.locals[i]) && Blame(s'.locals[i], s'.first, Quiet(line, s'))
    {
      assert StageOk(line, i, s.locals[i]) && Blame(s.locals[i], s.first, Quiet(line, s));
    }
  }

  /** Every step of every interleaving keeps the invariant. */
  lemma StepKeeps(line: Line, s: State, a: Action)
    requires Inv(line, s) && Enabled(line, s, a)
    ensures Inv(line, Apply(line, s, a))
  {
    match a
    case CallerCancels => CallerKeeps(line, s);
    case GiveUp(i) => GiveUpKeeps(line, s, i);
    case ReadOn(i) => ReadKeeps(line, s, i);
    case Go(i) =>
      var l := s.locals[i];
      match l.pc {
        case Init => PrepareKeeps(line, s, i);
        case Ready => PrepareKeeps(line, s, i);
        case Running =>
          if l.out != [] {
            HandOnKeeps(line, s, i);
          } else if l.ending.Some? {
            ReturnKeeps(line, s, i);
          } else {
            ReadKeeps(line, s, i);
          }
        case Recording(_) => RecordKeeps(line, s, i);
        case Shutting(_) => FinishKeeps(line, s, i);
        case Joining(_) => FinishKeeps(line, s, i);
        case _ => LeaveKeeps(line, s, i);
      }
  }

  lemma {:induction false} RunKeeps(line: Line, acts: seq<Action>)
    requires line.Size() > 0 && Execute(line, Initial(line), acts).Some?
    ensures Inv(line, Execute(line, Initial(line), acts).value)
  {
    if acts == [] {
      InitialInv(line);
    } else {
      RunKeeps(line, acts[..|acts| - 1]);
      StepKeeps(line, Execute(line, Initial(line), acts[..|acts| - 1]).value, acts[|acts| - 1]);
    }
  }

  // ---------------------------------------------------------------- the composition is one value

  lemma ConsumeGrows(p: Process, a: Outcome, b: Outcome)
    requires Towards(a, b)
    ensures Towards(Consume(p, a), Consume(p, b))
  {
    hide Closed;
    if a.status == Open {
      ReadingGrows(p, a.vals, b.vals);
      ClosedAfter(p, b.vals);
    }
  }

  lemma {:induction false} TicksGrow(a: nat, b: nat)
    requires a <= b
    ensures Ticks(a) <= Ticks(b)
  {
    if a < b {
      TicksGrow(a, b - 1);
    }
  }

  lemma {:induction false} SequentialGrows(line: Line, i: nat, a: nat, b: nat)
    requires i < line.Size() && a <= b
    ensures Towards(Sequential(line, i, a), Sequential(line, i, b))
  {
    if i == 0 {
      TicksGrow(a, b);
      ReadingGrows(line.stages[0], Ticks(a), Ticks(b));
    } else {
      SequentialGrows(line, i - 1, a, b);
      ConsumeGrows(line.stages[i], Sequential(line, i - 1, a), Sequential(line, i - 1, b));
    }
  }

  /** However often the source was asked, the composition has one result. */
  lemma OneResult(line: Line, v: seq<Value>, w: seq<Value>)
    requires line.Size() > 0 && Computes(line, v) && Computes(line, w)
    ensures v == w
  {
    var a: nat :| Whole(line, a) == Outcome(v, Ended);
    var b: nat :| Whole(line, b) == Outcome(w, Ended);
    SequentialGrows(line, line.Size() - 1, if a <= b then a else b, if a <= b then b else a);
  }

  // ---------------------------------------------------------------- main results

  /** If the line returns nil, what it collected is the composition of its stages over the
      source, in order - for every interleaving, and whichever branch every select took -
      unless a stage of this run has itself failed with context.Canceled. */
  lemma NilMeansComposition(line: Line, s: State)
    requires line.Size() > 0 && Reachable(line, s) && !s.own
    requires Shaped(line, s) && s.locals[line.Size() - 1].pc == Over(None)
    ensures Computes(line, Collected(s))
  {
    var acts :| Execute(line, Initial(line), acts) == Some(s);
    RunKeeps(line, acts);
  }

  /** If the caller never cancelled, a line that fails returns the first failure recorded,
      and that is the error the same stage has in the composition - never the shutdown the
      line brought on itself. */
  lemma FailureIsOwn(line: Line, s: State, f: Failure)
    requires line.Size() > 0 && Reachable(line, s) && !s.own && !s.parent
    requires Shaped(line, s) && s.locals[line.Size() - 1].pc == Over(Some(f))
    ensures s.first == Some(f) && f.err != Canceled && FailsAt(line, f.stage, f.err)
  {
    var acts :| Execute(line, Initial(line), acts) == Some(s);
    RunKeeps(line, acts);
  }

  /** A line none of whose stages can fail with context.Canceled has only such runs. */
  lemma NoOwnCancellationAnywhere(line: Line, s: State)
    requires line.Size() > 0 && NoOwnCancellation(line) && Reachable(line, s)
    ensures !s.own
  {
    var acts :| Execute(line, Initial(line), acts) == Some(s);
    RunKeeps(line, acts);
  }

  /** Back-pressure: no channel ever holds more than its buffer; every value handed on is
      read in order, none lost and none twice. */
  lemma ChannelsAreBounded(line: Line, s: State, i: nat)
    requires line.Size() > 0 && Reachable(line, s) && i + 1 < line.Size()
    ensures Shaped(line, s)
    ensures |s.chans[i]| <= 64 && s.locals[i].sent == s.locals[i + 1].hist + s.chans[i]
  {
    var acts :| Execute(line, Initial(line), acts) == Some(s);
    RunKeeps(line, acts);
    assert LinkOk(s.locals[i], s.chans[i], s.locals[i + 1]);
  }

  /** So two runs of one line that both return nil collected the same values. */
  lemma RunsAgree(line: Line, s: State, t: State)
    requires line.Size() > 0 && Reachable(line, s) && Reachable(line, t) && !s.own && !t.own
    requires Shaped(line, s) && s.locals[line.Size() - 1].pc == Over(None)
    requires Shaped(line, t) && t.locals[line.Size() - 1].pc == Over(None)
    ensures Collected(s) == Collected(t)
  {
    NilMeansComposition(line, s);
    NilMeansComposition(line, t);
    OneResult(line, Collected(s), Collected(t));
  }

  // ---------------------------------------------------------------- the gate

  predicate By(a: Action, i: nat) {
    a == Go(i) || a == ReadOn(i) || a == GiveUp(i)
  }

  /** A stage's step touches its own state and its own two channels, of the stages' states
      and the channels. */
  lemma Locality(line: Line, s: State, a: Action, j: nat)
    requires Shaped(line, s) && Enabled(line, s, a) && By(a, j)
    ensures Shaped(line, Apply(line, s, a))
    ensures forall i :: 0 <= i < line.Size() && i != j ==> Apply(line, s, a).locals[i] == s.locals[i]
    ensures forall i :: 0 <= i < line.Size() - 1 && i != j && i != j - 1 ==> Apply(line, s, a).chans[i] == s.chans[i]
    ensures !a.Go? || s.locals[j].pc != Ready ==> Apply(line, s, a).live == s.live && Apply(line, s, a).answer == s.answer
  {
    hide AllReported, AllGone, Absorb, CanRead, Fails, Returning;
    if a == GiveUp(j) {
      hide Step, CanGo;
    } else if a == ReadOn(j) {
      hide Step, CanGo, Work;
    } else if s.locals[j].pc == Running {
      assert Apply(line, s, a) == Work(line, s, j, s.locals[j]);
      hide Step, Apply, Enabled;
      WorkLocality(line, s, j);
    } else {
      assert Apply(line, s, a) == Step(line, s, j, s.locals[j]);
      hide Step, Apply, Enabled;
      MoveLocality(line, s, j);
    }
  }

  lemma MoveLocality(line: Line, s: State, j: nat)
    requires Shaped(line, s) && j < line.Size() && s.locals[j].pc != Running && CanGo(line, s, j, s.locals[j])
    ensures var t := Step(line, s, j, s.locals[j]);
            && (s.locals[j].pc != Ready ==> t.live == s.live && t.answer == s.answer)
            && (forall i :: 0 <= i < line.Size() && i != j ==> t.locals[i] == s.locals[i])
            && (forall i :: 0 <= i < line.Size() - 1 && i != j && i != j - 1 ==> t.chans[i] == s.chans[i])
  {
    hide Work, AllReported, AllGone;
  }

  lemma WorkLocality(line: Line, s: State, j: nat)
    requires Shaped(line, s) && j < line.Size() && s.locals[j].pc == Running && CanGo(line, s, j, s.locals[j])
    ensures var t := Work(line, s, j, s.locals[j]);
            && t.live == s.live && t.answer == s.answer
            && (forall i :: 0 <= i < line.Size() && i != j ==> t.locals[i] == s.locals[i])
            && (forall i :: 0 <= i < line.Size() - 1 && i != j && i != j - 1 ==> t.chans[i] == s.chans[i])
  {
    hide Absorb, Fails, Returning;
  }

  /** What the last stage is told about its source. */
  predicate GateOk(line: Line, s: State)
    requires Shaped(line, s)
  {
    var source := s.locals[0];
    && (s.live ==> line.stages[0].live)
    && (line.Size() > 1 && line.stages[0].live && source.pc !in {Init, Ready} && source.ret != Bad ==> s.live)
    && (s.answer == Some(true) ==> line.stages[0].live)
    && (s.answer == Some(false) ==> line.stages[0].live ==> source.ret == Bad)
  }

  /** The source's own steps: it is heard before it is past Ready, and Bad is for good. */
  lemma SourceGate(line: Line, s: State, a: Action)
    requires Inv(line, s) && Enabled(line, s, a) && GateOk(line, s) && By(a, 0)
    requires !a.Go? || s.locals[0].pc != Ready
    ensures GateOk(line, Apply(line, s, a))
  {
    assert StageOk(line, 0, s.locals[0]);
    Locality(line, s, a, 0);
    SourceRet(line, s, a);
    hide StageOk, Apply, Shared, LinkOk, Enabled;
  }

  predicate BadIsLeft(l: Local) { l.ret == Bad ==> l.pc !in {Init, Ready, Running} }

  predicate RetStays(l: Local, l': Local) {
    (l.ret == Bad ==> l'.ret == Bad) && (l.pc == Init ==> l'.pc == Ready || l'.ret == Bad)
  }

  lemma SourceRet(line: Line, s: State, a: Action)
    requires Shaped(line, s) && Enabled(line, s, a) && By(a, 0) && BadIsLeft(s.locals[0])
    ensures RetStays(s.locals[0], Apply(line, s, a).locals[0])
  {
    if a == GiveUp(0) {
      hide Step, CanGo;
    } else if s.locals[0].pc == Running {
      assert Apply(line, s, a) == Work(line, s, 0, s.locals[0]);
      hide Enabled, Apply, Step, CanGo, Work;
    } else {
      assert Apply(line, s, a) == Step(line, s, 0, s.locals[0]);
      hide Enabled, Apply;
      MoveRet(line, s);
    }
  }

  lemma MoveRet(line: Line, s: State)
    requires Shaped(line, s) && line.Size() > 0 && s.locals[0].pc != Running && BadIsLeft(s.locals[0])
    requires CanGo(line, s, 0, s.locals[0])
    ensures RetStays(s.locals[0], Step(line, s, 0, s.locals[0]).locals[0])
  {
    hide Work, AllReported, AllGone;
  }

  lemma GateKeeps(line: Line, s: State, a: Action)
    requires Inv(line, s) && Enabled(line, s, a) && GateOk(line, s)
    ensures GateOk(line, Apply(line, s, a))
  {
    hide Shared, LinkOk, StageOk, Step, CanGo;
    if a.CallerCancels? {
    } else if a.Go? && s.locals[a.i].pc == Ready {
      ReadyGate(line, s, a.i);
    } else if a.i == 0 {
      SourceGate(line, s, a);
    } else {
      hide Apply, Enabled, GateOk, Inv;
      OtherGate(line, s, a);
    }
  }

  lemma OtherGate(line: Line, s: State, a: Action)
    requires Shaped(line, s) && Enabled(line, s, a) && GateOk(line, s) && !a.CallerCancels? && a.i > 0
    requires !a.Go? || s.locals[a.i].pc != Ready
    ensures GateOk(line, Apply(line, s, a))
  {
    Locality(line, s, a, a.i);
    hide Apply, Enabled;
  }

  lemma ReadyGate(line: Line, s: State, i: nat)
    requires Inv(line, s) && Enabled(line, s, Go(i)) && GateOk(line, s) && s.locals[i].pc == Ready
    ensures GateOk(line, Apply(line, s, Go(i)))
  {
    assert StageOk(line, 0, s.locals[0]);
    hide Shared, LinkOk, StageOk, Read, HandOn, Returning, AllGone;
    if line.IsLast(i) && line.stages[i].waits && i > 0 {
      assert s.locals[0].reported;
    }
  }

  lemma {:induction false} RunKeepsGate(line: Line, acts: seq<Action>)
    requires line.Size() > 0 && Execute(line, Initial(line), acts).Some?
    ensures Shaped(line, Execute(line, Initial(line), acts).value) && GateOk(line, Execute(line, Initial(line), acts).value)
  {
    RunKeeps(line, acts);
    if acts != [] {
      RunKeeps(line, acts[..|acts| - 1]);
      RunKeepsGate(line, acts[..|acts| - 1]);
      hide GateOk, Inv, Enabled, Apply;
      GateKeeps(line, Execute(line, Initial(line), acts[..|acts| - 1]).value, acts[|acts| - 1]);
    }
  }

  /** The last stage is told the truth about its source: live if and only if the source is,
      unless that source has failed. */
  lemma AnswerIsTrue(line: Line, s: State)
    requires line.Size() > 0 && Reachable(line, s) && Shaped(line, s)
    requires s.answer.Some? && s.locals[0].ret != Bad
    ensures s.answer.value == line.stages[0].live
  {
    var acts :| Execute(line, Initial(line), acts) == Some(s);
    RunKeepsGate(line, acts);
  }
}
