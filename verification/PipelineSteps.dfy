/** Single steps of the executor (internal/shell/pipeline.go): when each can be taken, and what
    it does. */
module PipelineSteps {
  import opened Wrappers
  import opened Pipeline

  /** A stage that waits for a value takes one if there is one, and sees the end only once the
      stage above has closed its channel and all of it has been read.  The source is asked
      whenever it is ready. */
  lemma Receives(line: Line, s: State, i: nat)
    requires Shaped(line, s) && i < line.Size() && s.locals[i].pc == Running && s.locals[i].out == [] && s.locals[i].ending == None
    ensures i == 0 ==> Enabled(line, s, Go(i))
    ensures i > 0 ==> (Enabled(line, s, Go(i)) <==> s.chans[i - 1] != [] || s.locals[i - 1].pc in {Leaving, Gone})
  {
  }

  lemma Received(line: Line, s: State, i: nat)
    requires Shaped(line, s) && i < line.Size() && s.locals[i].pc == Running && s.locals[i].out == [] && s.locals[i].ending == None
    requires Enabled(line, s, Go(i))
    ensures i == 0 ==> Apply(line, s, Go(i)).locals[i].hist == s.locals[i].hist + [""]
    ensures i > 0 && s.chans[i - 1] != [] ==>
              var t := Apply(line, s, Go(i));
              t.locals[i].hist == s.locals[i].hist + [s.chans[i - 1][0]] && t.chans[i - 1] == s.chans[i - 1][1..] && t.locals[i].sawEnd == s.locals[i].sawEnd
    ensures i > 0 && s.chans[i - 1] == [] ==>
              var l := Apply(line, s, Go(i)).locals[i]; l.hist == s.locals[i].hist && l.sawEnd
  {
    ReactingReads();
    hide Absorb, CanGo;
  }

  lemma ReactingReads()
    ensures forall l, r, atEnd :: Absorb(l, r, atEnd).hist == l.hist && Absorb(l, r, atEnd).sawEnd == l.sawEnd
  {
  }

  /** What a stage does at the end of its input: its finish's values wait, and it returns. */
  lemma SeesTheEnd(line: Line, s: State, i: nat)
    requires Shaped(line, s) && 0 < i < line.Size() && s.locals[i].pc == Running && s.locals[i].out == [] && s.locals[i].ending == None
    requires s.chans[i - 1] == [] && Enabled(line, s, Go(i))
    ensures var l, r := Apply(line, s, Go(i)).locals[i], line.stages[i].finish(s.locals[i].hist);
            l.out == r.vals && l.ending == if r.Fail? then Some(Some(r.err)) else Some(None)
  {
  }

  /** Only put, rm and cat read ahead, while they hold something and more waits. */
  lemma ReadsAhead(line: Line, s: State, i: nat)
    requires Shaped(line, s) && 0 < i < line.Size()
    ensures Enabled(line, s, ReadOn(i)) <==>
            && line.stages[i].lags && s.locals[i].pc == Running && s.locals[i].ending == None
            && s.locals[i].out != [] && s.chans[i - 1] != []
  {
  }

  /** A context that is done is noticed wherever a stage waits: before it starts, to receive
      and to send - the last stage only appends, and waits there only for a request it makes
      for a lot. */
  lemma NoticesTheEnd(line: Line, s: State, i: nat)
    requires Shaped(line, s) && i < line.Size()
    ensures Enabled(line, s, GiveUp(i)) <==>
            && (s.cancelled || s.parent)
            && (s.locals[i].pc == Init ||
                (s.locals[i].pc == Running && s.locals[i].out == [] && s.locals[i].ending == None) ||
                (s.locals[i].pc == Running && s.locals[i].out != [] && (i + 1 < line.Size() || line.stages[i].lags)))
    ensures Enabled(line, s, GiveUp(i)) ==> Apply(line, s, GiveUp(i)) == s.(locals := s.locals[i := s.locals[i].(pc := Recording(Canceled), ret := Bad)])
  {
  }

  /** The gate: a last stage that asks waits until every stage above it has reported, and is
      told what the source has said; one that does not ask is told nothing.  A stage above
      reports as it starts, and the source says then whether it is live. */
  lemma Gate(line: Line, s: State, i: nat)
    requires Shaped(line, s) && i < line.Size() && s.locals[i].pc == Ready
    ensures i + 1 == line.Size() ==>
              (Enabled(line, s, Go(i)) <==> line.stages[i].waits ==> forall k :: 0 <= k < i ==> s.locals[k].reported)
    ensures i + 1 < line.Size() ==> Enabled(line, s, Go(i))
    ensures Enabled(line, s, Go(i)) ==>
              var t := Apply(line, s, Go(i));
              && t.locals[i].pc == Running
              && if i + 1 == line.Size()
                 then t.answer == (if line.stages[i].waits && i > 0 then Some(s.live) else None) && t.live == s.live
                 else t.locals[i].reported && t.answer == s.answer && (t.live <==> s.live || (i == 0 && line.stages[0].live))
  {
  }

  /** A stage that fails records its failure, the first one staying; then it cancels the line,
      reports, closes its channel and leaves, in that order.  The last stage cancels too, and
      then waits for all the others to have gone. */
  lemma Leaves(line: Line, s: State, i: nat)
    requires Shaped(line, s) && i < line.Size() && Enabled(line, s, Go(i))
    ensures var t, was := Apply(line, s, Go(i)), s.locals[i].pc;
            var now := t.locals[i].pc;
            && (was.Recording? ==>
                  && t.first == (if s.first == None then Some(Failure(i, was.err)) else s.first)
                  && now == if i + 1 == line.Size() then Shutting(Some(was.err)) else Cancelling)
            && (was.Cancelling? ==> t.cancelled && now == Reporting)
            && (was.Reporting? ==> t.locals[i].reported && now == Closing)
            && (was.Closing? ==> now == Leaving)
            && (was.Leaving? ==> now == Gone)
            && (was.Shutting? ==> t.cancelled && now == Joining(was.last))
            && (was.Joining? ==> (forall k :: 0 <= k < |s.locals| - 1 ==> s.locals[k].pc == Gone) && now == Over(Pipeline.Result(s, was.last)))
  {
  }

  /** execute answers with the first failure recorded - save that a line whose last stage
      finished, and which the caller did not cancel, is not failed by its own shutdown. */
  lemma Answers(s: State, last: Option<Err>)
    ensures Pipeline.Result(s, last) == None <==> s.first == None || (s.first.value.err == Canceled && last == None && !s.parent)
    ensures Pipeline.Result(s, last) != None ==> Pipeline.Result(s, last) == s.first
  {
  }

  /** A stage that cannot be prepared fails before it reads. */
  lemma Prepares(line: Line, s: State, i: nat)
    requires Shaped(line, s) && i < line.Size() && s.locals[i].pc == Init
    ensures Enabled(line, s, Go(i))
    ensures Apply(line, s, Go(i)).locals[i].pc == if line.stages[i].setup.Some? then Recording(line.stages[i].setup.value) else Ready
  {
  }

  /** Having handed on all it had, a stage returns as its reaction said. */
  lemma Returns(line: Line, s: State, i: nat)
    requires Shaped(line, s) && i < line.Size() && s.locals[i].pc == Running && s.locals[i].out == [] && s.locals[i].ending.Some?
    ensures Enabled(line, s, Go(i))
    ensures var l, why := Apply(line, s, Go(i)).locals[i], s.locals[i].ending.value;
            if why.Some? then l.pc == Recording(why.value) && l.ret == Bad
            else l.ret == Fine && l.pc == if i + 1 == line.Size() then Shutting(None) else Reporting
  {
  }
}
