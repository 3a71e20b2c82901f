/** Why the pipeline's guarantees ask that no stage's own error is context.Canceled. */
module PipelineCancellation {
  import opened Wrappers
  import opened Pipeline
  import opened PipelineSafety

  /** A source whose own error is context.Canceled, above a stage that passes values on. */
  const CANCELING := Line([
    Process(None, false, false, false, (h: seq<Value>) => Fail([], Canceled), (h: seq<Value>) => Stop([])),
    Process(None, false, false, false, (h: seq<Value>) => if h == [] then Emit([]) else Emit([h[|h| - 1]]), (h: seq<Value>) => Stop([]))
  ])

  lemma Longer(line: Line, acts: seq<Action>, s: State, a: Action)
    requires line.Size() > 0 && Execute(line, Initial(line), acts) == Some(s)
    requires Shaped(line, s) && Enabled(line, s, a)
    ensures Execute(line, Initial(line), acts + [a]) == Some(Apply(line, s, a))
  {
    assert (acts + [a])[..|acts|] == acts;
  }

  /** From here the two stages of CANCELING can go on to there. */
  ghost predicate Leads(s: State, i: nat, t: State) {
    Shaped(CANCELING, s) && Enabled(CANCELING, s, Go(i)) && Apply(CANCELING, s, Go(i)) == t
  }

  lemma Next(s: State, i: nat, t: State)
    requires Reachable(CANCELING, s) && Leads(s, i, t)
    ensures Reachable(CANCELING, t)
  {
    var acts :| Execute(CANCELING, Initial(CANCELING), acts) == Some(s);
    Longer(CANCELING, acts, s, Go(i));
  }

  /** Both stages, with nothing in the channel. */
  function Both(a: Local, b: Local, first: Option<Failure>, cancelled: bool): State {
    State([a, b], [[]], first, cancelled, false, false, None, a.ret == Bad)
  }

  lemma SourceFails()
    ensures Reachable(CANCELING, Both(FAILING, START, None, false))
  {
    hide Execute, Reachable;
    var s := Initial(CANCELING);
    StartReachable();
    var l := START.(pc := Ready);
    Next(s, 0, Both(l, START, None, false));
    var r := l.(pc := Running, reported := true);
    Next(Both(l, START, None, false), 0, Both(r, START, None, false));
    var f := r.(hist := [""], ending := Some(Some(Canceled)));
    assert r.hist + [""] == [""];
    Next(Both(r, START, None, false), 0, Both(f, START, None, false));
    Next(Both(f, START, None, false), 0, Both(FAILING, START, None, false));
  }

  const FAILING := START.(pc := Recording(Canceled), hist := [""], ending := Some(Some(Canceled)), reported := true, ret := Bad)
  const GONE := FAILING.(pc := Gone)

  lemma SourceLeaves()
    ensures Reachable(CANCELING, Both(GONE, START, Some(Failure(0, Canceled)), true))
  {
    hide Execute, Reachable;
    var own, g := Some(Failure(0, Canceled)), FAILING;
    SourceFails();
    Next(Both(g, START, None, false), 0, Both(g.(pc := Cancelling), START, own, false));
    Next(Both(g.(pc := Cancelling), START, own, false), 0, Both(g.(pc := Reporting), START, own, true));
    Next(Both(g.(pc := Reporting), START, own, true), 0, Both(g.(pc := Closing), START, own, true));
    Next(Both(g.(pc := Closing), START, own, true), 0, Both(g.(pc := Leaving), START, own, true));
    Next(Both(g.(pc := Leaving), START, own, true), 0, Both(GONE, START, own, true));
  }

  lemma StartReachable()
    ensures Initial(CANCELING) == Both(START, START, None, false)
    ensures Reachable(CANCELING, Both(START, START, None, false))
  {
    assert Execute(CANCELING, Initial(CANCELING), []) == Some(Initial(CANCELING));
    assert Initial(CANCELING).locals == [START, START];
    assert Initial(CANCELING).chans == [[]];
  }

  const READING := START.(pc := Running)
  const FINISHED := READING.(sawEnd := true, ending := Some(None), ret := Fine)

  lemma LastReads()
    ensures Reachable(CANCELING, Both(GONE, READING, Some(Failure(0, Canceled)), true))
  {
    hide Execute, Reachable;
    SourceLeaves();
    var own, l := Some(Failure(0, Canceled)), START.(pc := Ready);
    Next(Both(GONE, START, own, true), 1, Both(GONE, l, own, true));
    Next(Both(GONE, l, own, true), 1, Both(GONE, READING, own, true));
  }

  lemma LastReturns()
    ensures Reachable(CANCELING, Both(GONE, FINISHED.(pc := Shutting(None)), Some(Failure(0, Canceled)), true))
  {
    hide Execute, Reachable;
    LastReads();
    var own, f := Some(Failure(0, Canceled)), READING.(sawEnd := true, ending := Some(None));
    assert READING.out + [] == [];
    Next(Both(GONE, READING, own, true), 1, Both(GONE, f, own, true));
    Next(Both(GONE, f, own, true), 1, Both(GONE, FINISHED.(pc := Shutting(None)), own, true));
  }

  /** A failing source whose error is context.Canceled looks like the line's own shutdown:
      the line returns nil although the composition of its stages fails. */
  lemma OwnCancellationIsLost() returns (s: State)
    ensures Reachable(CANCELING, s) && Shaped(CANCELING, s) && !s.parent && s.own
    ensures s.locals[1].pc == Over(None) && !Computes(CANCELING, Collected(s))
  {
    hide Execute, Reachable;
    LastReturns();
    var own, g := Some(Failure(0, Canceled)), FINISHED;
    Next(Both(GONE, g.(pc := Shutting(None)), own, true), 1, Both(GONE, g.(pc := Joining(None)), own, true));
    s := Both(GONE, g.(pc := Over(None)), own, true);
    Next(Both(GONE, g.(pc := Joining(None)), own, true), 1, s);
    forall k: nat
      ensures Whole(CANCELING, k) != Outcome([], Ended)
    {
      CancelingNeverEnds(k);
    }
  }

  lemma {:induction false} CancelingNeverEnds(k: nat)
    ensures Sequential(CANCELING, 0, k).vals == [] && Sequential(CANCELING, 0, k).status != Ended
    ensures Whole(CANCELING, k) == Outcome([], Open)
  {
    if k > 0 {
      CancelingNeverEnds(k - 1);
    }
  }

  /** The same line can also report it: its last stage may take the cancellation branch. */
  lemma OwnCancellationIsReported() returns (s: State)
    ensures Reachable(CANCELING, s) && Shaped(CANCELING, s) && !s.parent && s.own
    ensures s.locals[1].pc == Over(Some(Failure(0, Canceled)))
  {
    hide Execute, Reachable;
    SourceLeaves();
    var own := Some(Failure(0, Canceled));
    var g := START.(pc := Recording(Canceled), ret := Bad);
    GivesUp(Both(GONE, START, own, true));
    assert [GONE, START][1 := g] == [GONE, g];
    Next(Both(GONE, g, own, true), 1, Both(GONE, g.(pc := Shutting(Some(Canceled))), own, true));
    Next(Both(GONE, g.(pc := Shutting(Some(Canceled))), own, true), 1, Both(GONE, g.(pc := Joining(Some(Canceled))), own, true));
    s := Both(GONE, g.(pc := Over(own)), own, true);
    Next(Both(GONE, g.(pc := Joining(Some(Canceled))), own, true), 1, s);
  }

  lemma GivesUp(s: State)
    requires Reachable(CANCELING, s) && Shaped(CANCELING, s) && s.Done() && s.locals[1].pc == Init
    ensures Reachable(CANCELING, Set(s, 1, s.locals[1].(pc := Recording(Canceled), ret := Bad)))
  {
    var acts :| Execute(CANCELING, Initial(CANCELING), acts) == Some(s);
    Longer(CANCELING, acts, s, GiveUp(1));
  }

  // ---------------------------------------------------------------- lines that only cancel

  /** Every failure the stages of the line can produce is context.Canceled. */
  ghost predicate OnlyCancels(line: Line) {
    forall i, e :: IsOwn(line, i, e) ==> e == Canceled
  }

  /** Whatever is recorded is a cancellation, and the last stage's own return decides. */
  predicate Silent(line: Line, s: State)
    requires Shaped(line, s)
  {
    var last := s.locals[line.Size() - 1];
    && (s.first.Some? ==> s.first.value.err == Canceled)
    && (last.pc.Over? ==>
          && (last.pc.result.Some? ==> last.pc.result.value.err == Canceled)
          && (!s.parent ==> (last.pc.result == None <==> last.ret == Fine)))
  }

  lemma OnlyCancellations(line: Line, i: nat, l: Local)
    requires OnlyCancels(line) && i < line.Size() && StageOk(line, i, l) && l.pc.Recording?
    ensures l.pc.err == Canceled
  {
    assert FailedItself(line.stages[i], l, l.pc.err) ==> IsOwn(line, i, l.pc.err);
  }

  /** The steps that touch neither the latch nor the end of the line. */
  lemma SilentFrame(line: Line, s: State, a: Action)
    requires Shaped(line, s) && Enabled(line, s, a) && Silent(line, s)
    requires a.Go? ==> !s.locals[a.i].pc.Recording? && !s.locals[a.i].pc.Joining?
    ensures Shaped(line, Apply(line, s, a)) && Silent(line, Apply(line, s, a))
  {
    if a.CallerCancels? {
      hide Step;
    } else {
      Locality(line, s, a, a.i);
      LatchStands(line, s, a);
      hide Enabled, Apply;
    }
  }

  lemma LatchStands(line: Line, s: State, a: Action)
    requires Shaped(line, s) && Enabled(line, s, a) && !a.CallerCancels?
    requires a.Go? ==> !s.locals[a.i].pc.Recording? && !s.locals[a.i].pc.Joining?
    ensures Stands(s, Apply(line, s, a), a.i)
  {
    if a.ReadOn? {
      hide Step, CanGo, Read;
      ReadLatch(line, s, a.i);
    } else if a.GiveUp? {
      hide Step, CanGo;
    } else if s.locals[a.i].pc == Running {
      assert Apply(line, s, a) == Work(line, s, a.i, s.locals[a.i]);
      hide Enabled, Apply, Step, CanGo, Work;
      WorkLatch(line, s, a.i);
    } else {
      assert Apply(line, s, a) == Step(line, s, a.i, s.locals[a.i]);
      hide Enabled, Apply, Step;
      MoveLatch(line, s, a.i);
    }
  }

  /** Running, a stage leaves latch and caller alone, and is not done. */
  predicate Stands(s: State, t: State, i: nat) {
    t.first == s.first && t.parent == s.parent && i < |t.locals| && !t.locals[i].pc.Over?
  }

  lemma WorkLatch(line: Line, s: State, i: nat)
    requires Shaped(line, s) && i < line.Size() && s.locals[i].pc == Running && CanGo(line, s, i, s.locals[i])
    ensures Stands(s, Work(line, s, i, s.locals[i]), i)
  {
    hide Stands, Read, HandOn, Returning;
    var l := s.locals[i];
    if l.out != [] {
      HandOnLatch(line, s, i);
    } else if l.ending.Some? {
      ReturnLatch(s, i, line.IsLast(i));
    } else {
      ReadLatch(line, s, i);
    }
  }

  lemma HandOnLatch(line: Line, s: State, i: nat)
    requires Shaped(line, s) && i < line.Size() && s.locals[i].pc == Running && s.locals[i].out != []
    ensures Stands(s, HandOn(line, s, i, s.locals[i]), i)
  {
  }

  lemma ReturnLatch(s: State, i: nat, last: bool)
    requires i < |s.locals| && s.locals[i].ending.Some?
    ensures Stands(s, Returning(s, i, s.locals[i], last), i)
  {
  }

  lemma ReadLatch(line: Line, s: State, i: nat)
    requires Shaped(line, s) && i < line.Size() && s.locals[i].pc == Running
    requires i == 0 || s.chans[i - 1] != [] || s.locals[i - 1].Shut()
    ensures Stands(s, Read(line, s, i, s.locals[i]), i)
  {
  }

  lemma MoveLatch(line: Line, s: State, i: nat)
    requires Shaped(line, s) && i < line.Size() && CanGo(line, s, i, s.locals[i])
    requires s.locals[i].pc != Running && !s.locals[i].pc.Recording? && !s.locals[i].pc.Joining?
    ensures Stands(s, Step(line, s, i, s.locals[i]), i)
  {
    hide Work, AllReported, AllGone;
  }

  lemma SilentKeeps(line: Line, s: State, a: Action)
    requires Inv(line, s) && Enabled(line, s, a) && OnlyCancels(line) && Silent(line, s)
    ensures Shaped(line, Apply(line, s, a)) && Silent(line, Apply(line, s, a))
  {
    if a.Go? && s.locals[a.i].pc.Recording? {
      assert StageOk(line, a.i, s.locals[a.i]);
      hide Inv;
      OnlyCancellations(line, a.i, s.locals[a.i]);
      hide StageOk;
    } else if a.Go? && s.locals[a.i].pc.Joining? {
      var l := s.locals[a.i];
      assert StageOk(line, a.i, l) && Blame(l, s.first, Quiet(line, s));
      hide Inv;
      assert l.ret != NotYet && line.IsLast(a.i);
    } else {
      hide Inv, OnlyCancels, Silent, Apply;
      SilentFrame(line, s, a);
    }
  }

  lemma {:induction false} SilentRun(line: Line, acts: seq<Action>)
    requires line.Size() > 0 && Execute(line, Initial(line), acts).Some? && OnlyCancels(line)
    ensures Shaped(line, Execute(line, Initial(line), acts).value) && Silent(line, Execute(line, Initial(line), acts).value)
  {
    if acts != [] {
      var front := acts[..|acts| - 1];
      RunKeeps(line, front);
      SilentRun(line, front);
      hide Inv, Silent, OnlyCancels, Enabled, Apply;
      SilentKeeps(line, Execute(line, Initial(line), front).value, acts[|acts| - 1]);
    }
  }

  /** A line whose stages fail only with context.Canceled, and whose composition fails: every
      run the caller did not cancel ends with a stage having so failed, and returns nil -
      losing that failure - exactly when the last stage itself returned nil. */
  lemma OnlyCancelsLosesFailures(line: Line, s: State)
    requires line.Size() > 0 && OnlyCancels(line) && Reachable(line, s) && !s.parent
    requires Shaped(line, s) && s.locals[line.Size() - 1].pc.Over?
    requires forall vals :: !Computes(line, vals)
    ensures s.own
    ensures s.locals[line.Size() - 1].pc.result == None <==> s.locals[line.Size() - 1].ret == Fine
    ensures s.locals[line.Size() - 1].pc.result.Some? ==> s.locals[line.Size() - 1].pc.result.value.err == Canceled
  {
    var acts :| Execute(line, Initial(line), acts) == Some(s);
    SilentRun(line, acts);
    hide Execute, Reachable;
    assert Reachable(line, s);
    if !s.own {
      match s.locals[line.Size() - 1].pc.result {
        case None => NilMeansComposition(line, s);
        case Some(f) => FailureIsOwn(line, s, f);
      }
    }
  }
}
