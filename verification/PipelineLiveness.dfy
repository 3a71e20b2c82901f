/** The pipeline executor never gets stuck, and with a finite source it always ends. */
module PipelineLiveness {
  import opened Wrappers
  import opened Pipeline
  import opened PipelineSafety

  // ---------------------------------------------------------------- some step is always possible

  /** A stage waiting on an open, empty channel waits for a stage that can move. */
  lemma {:induction false} SomeoneFeeds(line: Line, s: State, i: nat) returns (k: nat)
    requires Inv(line, s) && i < line.Size() && CanRead(s.locals[i])
    ensures k <= i && Enabled(line, s, Go(k))
  {
    hide Shared, Closed, Reading, IsOwn;
    if i == 0 || s.chans[i - 1] != [] || s.locals[i - 1].Shut() {
      k := i;
    } else {
      assert StageOk(line, i - 1, s.locals[i - 1]);
      if CanRead(s.locals[i - 1]) {
        k := SomeoneFeeds(line, s, i - 1);
      } else {
        k := i - 1;
      }
    }
  }

  /** A stage that has not left can move once the context is done. */
  lemma LeavesWhenDone(line: Line, s: State, k: nat) returns (a: Action)
    requires Inv(line, s) && k + 1 < line.Size() && s.locals[k].pc != Gone && s.Done()
    ensures a != CallerCancels && Enabled(line, s, a)
  {
    assert StageOk(line, k, s.locals[k]);
    var l := s.locals[k];
    a := if l.pc == Running && (l.out != [] || l.ending == None) then GiveUp(k) else Go(k);
  }

  /** No reachable state is stuck: until execute returns, some stage can take a step. */
  lemma Progress(line: Line, s: State) returns (a: Action)
    requires Inv(line, s) && !s.locals[line.Size() - 1].pc.Over?
    ensures a != CallerCancels && Enabled(line, s, a)
  {
    var n := line.Size() - 1;
    var l := s.locals[n];
    assert StageOk(line, n, l);
    a := Go(n);
    if l.pc == Ready && line.stages[n].waits && !AllReported(s) {
      var k :| 0 <= k < n && !s.locals[k].reported;
      assert StageOk(line, k, s.locals[k]);
      a := Go(k);
    } else if l.pc == Running && CanRead(l) {
      var k := SomeoneFeeds(line, s, n);
      a := Go(k);
    } else if l.pc.Joining? && !AllGone(s) {
      var k :| 0 <= k < n && s.locals[k].pc != Gone;
      a := LeavesWhenDone(line, s, k);
    }
  }

  lemma NeverStuck(line: Line, s: State)
    requires line.Size() > 0 && Reachable(line, s)
    ensures Shaped(line, s)
    ensures s.locals[line.Size() - 1].pc.Over? || exists a :: a != CallerCancels && Enabled(line, s, a)
  {
    var acts :| Execute(line, Initial(line), acts) == Some(s);
    RunKeeps(line, acts);
    if !s.locals[line.Size() - 1].pc.Over? {
      var a := Progress(line, s);
    }
  }

  /** Every producer has said whether it is live before it hands on its first value, so the
      last stage's wait never depends on a value being read. */
  lemma ReportsBeforeSending(line: Line, s: State, i: nat)
    requires line.Size() > 0 && Reachable(line, s) && i + 1 < line.Size()
    ensures Shaped(line, s) && (s.locals[i].sent != [] ==> s.locals[i].reported)
  {
    var acts :| Execute(line, Initial(line), acts) == Some(s);
    RunKeeps(line, acts);
    assert StageOk(line, i, s.locals[i]);
  }

  // ---------------------------------------------------------------- and not for ever

  /** The source stops - ends or fails - at its k-th answer at the latest. */
  ghost predicate StopsAt(line: Line, k: nat) {
    line.Size() > 0 && k > 0 && !line.stages[0].react(Ticks(k)).Emit?
  }

  function Rank(pc: Pc): nat {
    match pc
    case Init => 10
    case Ready => 9
    case Running => 8
    case Recording(_) => 7
    case Cancelling => 6
    case Shutting(_) => 6
    case Reporting => 5
    case Joining(_) => 5
    case Closing => 4
    case Over(_) => 4
    case Leaving => 3
    case Gone => 2
  }

  /** What a stage still has to read: of its channel, or of the source's answers. */
  function Left(s: State, i: nat, k: nat): nat
    requires i < |s.locals| && |s.chans| + 1 == |s.locals|
  {
    if i > 0 then |s.chans[i - 1]|
    else if |s.locals[0].hist| <= k then k - |s.locals[0].hist| else 0
  }

  datatype Measure = Measure(rank: nat, left: nat, open: nat, out: nat)

  function MeasureOf(s: State, i: nat, k: nat): Measure
    requires i < |s.locals| && |s.chans| + 1 == |s.locals|
  {
    var l := s.locals[i];
    Measure(Rank(l.pc), Left(s, i, k), if l.ending == None then 1 else 0, |l.out|)
  }

  predicate Below(a: Measure, b: Measure) {
    || a.rank < b.rank
    || (a.rank == b.rank && a.left < b.left)
    || (a.rank == b.rank && a.left == b.left && a.open < b.open)
    || (a.rank == b.rank && a.left == b.left && a.open == b.open && a.out < b.out)
  }

  lemma {:induction false} TickCount(n: nat)
    ensures |Ticks(n)| == n
  {
    if n > 0 {
      TickCount(n - 1);
    }
  }

  /** A source asked k times has stopped, and however often it is asked it stays so. */
  lemma SourceIsFinite(line: Line, k: nat, n: nat)
    requires StopsAt(line, k) && k <= n
    ensures Reading(line.stages[0], Ticks(n)).status != Open
  {
    TickCount(k);
    assert Ticks(k)[..k - 1] == Ticks(k - 1);
    TicksGrow(k, n);
    ReadingGrows(line.stages[0], Ticks(k), Ticks(n));
  }

  lemma SourceMayAnswer(line: Line, l: Local, k: nat)
    requires StopsAt(line, k) && StageOk(line, 0, l) && CanRead(l)
    ensures |l.hist| < k
  {
    if k <= |l.hist| {
      SourceIsFinite(line, k, |l.hist|);
    }
  }

  lemma ReadDecreases(line: Line, s: State, i: nat, k: nat)
    requires Shaped(line, s) && Enabled(line, s, Go(i)) && CanRead(s.locals[i])
    requires i == 0 ==> |s.locals[0].hist| < k
    ensures Below(MeasureOf(Apply(line, s, Go(i)), i, k), MeasureOf(s, i, k))
  {
  }

  lemma HandOnDecreases(line: Line, s: State, i: nat, k: nat)
    requires Shaped(line, s) && Enabled(line, s, Go(i)) && s.locals[i].pc == Running && s.locals[i].out != []
    ensures Below(MeasureOf(Apply(line, s, Go(i)), i, k), MeasureOf(s, i, k))
  {
  }

  lemma ReturnDecreases(line: Line, s: State, i: nat, k: nat)
    requires Shaped(line, s) && Enabled(line, s, Go(i)) && s.locals[i].pc == Running && s.locals[i].out == [] && s.locals[i].ending.Some?
    ensures Below(MeasureOf(Apply(line, s, Go(i)), i, k), MeasureOf(s, i, k))
  {
    hide Read, HandOn, Left;
    assert Rank(Returning(s, i, s.locals[i], line.IsLast(i)).locals[i].pc) < Rank(Running);
  }

  lemma ReadOnDecreases(line: Line, s: State, i: nat, k: nat)
    requires Shaped(line, s) && Enabled(line, s, ReadOn(i))
    ensures Below(MeasureOf(Apply(line, s, ReadOn(i)), i, k), MeasureOf(s, i, k))
  {
    hide Step, CanGo;
  }

  lemma GiveUpDecreases(line: Line, s: State, i: nat, k: nat)
    requires Shaped(line, s) && Enabled(line, s, GiveUp(i))
    ensures Below(MeasureOf(Apply(line, s, GiveUp(i)), i, k), MeasureOf(s, i, k))
  {
    hide Step, CanGo, Left;
  }

  lemma MoveDecreases(line: Line, s: State, i: nat, k: nat)
    requires Shaped(line, s) && Enabled(line, s, Go(i)) && s.locals[i].pc != Running
    ensures Below(MeasureOf(Apply(line, s, Go(i)), i, k), MeasureOf(s, i, k))
  {
    hide Work, AllReported, AllGone, Left;
    assert Rank(Step(line, s, i, s.locals[i]).locals[i].pc) < Rank(s.locals[i].pc);
  }

  /** A stage's own step brings its measure down ... */
  lemma StepDecreases(line: Line, s: State, a: Action, i: nat, k: nat)
    requires Inv(line, s) && Enabled(line, s, a) && By(a, i) && StopsAt(line, k)
    ensures Shaped(line, Apply(line, s, a)) && Below(MeasureOf(Apply(line, s, a), i, k), MeasureOf(s, i, k))
  {
    assert StageOk(line, i, s.locals[i]);
    Locality(line, s, a, i);
    hide Shared, LinkOk, Apply;
    if a == GiveUp(i) {
      hide StageOk;
      GiveUpDecreases(line, s, i, k);
    } else if a == ReadOn(i) {
      hide StageOk;
      ReadOnDecreases(line, s, i, k);
    } else if s.locals[i].pc != Running {
      hide StageOk;
      MoveDecreases(line, s, i, k);
    } else if s.locals[i].out == [] && s.locals[i].ending.Some? {
      hide StageOk;
      ReturnDecreases(line, s, i, k);
    } else if s.locals[i].out != [] {
      hide StageOk;
      HandOnDecreases(line, s, i, k);
    } else {
      if i == 0 {
        SourceMayAnswer(line, s.locals[0], k);
      }
      hide StageOk;
      ReadDecreases(line, s, i, k);
    }
  }

  /** ... and the steps of the stages below it leave it alone. */
  lemma OthersKeep(line: Line, s: State, a: Action, i: nat, j: nat, k: nat)
    requires Shaped(line, s) && Enabled(line, s, a) && By(a, j) && i < j < line.Size()
    ensures Shaped(line, Apply(line, s, a)) && MeasureOf(Apply(line, s, a), i, k) == MeasureOf(s, i, k)
  {
    Locality(line, s, a, j);
    hide Apply, Enabled;
  }

  /** An infinite run. */
  ghost predicate Forever(line: Line, run: nat -> State, acts: nat -> Action) {
    line.Size() > 0 && run(0) == Initial(line) && forall t: nat :: Goes(line, run, acts, t)
  }

  ghost predicate Goes(line: Line, run: nat -> State, acts: nat -> Action, t: nat) {
    Shaped(line, run(t)) && Enabled(line, run(t), acts(t)) && run(t + 1) == Apply(line, run(t), acts(t))
  }

  lemma {:induction false} ForeverInv(line: Line, run: nat -> State, acts: nat -> Action, t: nat)
    requires Forever(line, run, acts)
    ensures Inv(line, run(t))
  {
    if t == 0 {
      InitialInv(line);
    } else {
      ForeverInv(line, run, acts, t - 1);
      hide Inv, Apply, Enabled;
      assert Goes(line, run, acts, t - 1);
      StepKeeps(line, run(t - 1), acts(t - 1));
    }
  }

  /** From time t on, only stages below number i move. */
  ghost predicate OnlyFrom(acts: nat -> Action, i: nat, t: nat) {
    forall u: nat :: u >= t ==> !acts(u).CallerCancels? && acts(u).i >= i
  }

  /** While stage i does not move, its measure stands still. */
  lemma {:induction false} StillUntil(line: Line, run: nat -> State, acts: nat -> Action, i: nat, k: nat, t: nat, u: nat)
    requires Forever(line, run, acts) && i < line.Size() && OnlyFrom(acts, i, t) && t <= u
    requires forall w: nat :: t <= w < u ==> acts(w).i != i
    ensures Shaped(line, run(t)) && Shaped(line, run(u)) && MeasureOf(run(u), i, k) == MeasureOf(run(t), i, k)
    decreases u - t
  {
    assert Goes(line, run, acts, t) && Goes(line, run, acts, u);
    if t < u {
      StillUntil(line, run, acts, i, k, t, u - 1);
      hide Apply, MeasureOf;
      assert Goes(line, run, acts, u - 1);
      OthersKeep(line, run(u - 1), acts(u - 1), i, acts(u - 1).i, k);
    }
  }

  lemma {:induction false} FirstMove(acts: nat -> Action, i: nat, t: nat, u: nat) returns (w: nat)
    requires OnlyFrom(acts, i, t) && t <= u && acts(u).i == i
    ensures t <= w && acts(w).i == i && forall v: nat :: t <= v < w ==> acts(v).i != i
    decreases u - t
  {
    if acts(t).i == i {
      w := t;
    } else {
      w := FirstMove(acts, i, t + 1, u);
    }
  }

  /** If the stages above i have gone quiet, stage i goes quiet too. */
  lemma {:induction false} QuietAfter(line: Line, run: nat -> State, acts: nat -> Action, i: nat, k: nat, t: nat, m: Measure) returns (t': nat)
    requires Forever(line, run, acts) && StopsAt(line, k) && i < line.Size() && OnlyFrom(acts, i, t)
    requires Shaped(line, run(t)) && m == MeasureOf(run(t), i, k)
    ensures OnlyFrom(acts, i + 1, t')
    decreases m.rank, m.left, m.open, m.out
  {
    hide Apply, MeasureOf, Inv, Enabled;
    if u: nat :| u >= t && acts(u).i == i {
      var w := FirstMove(acts, i, t, u);
      StillUntil(line, run, acts, i, k, t, w);
      ForeverInv(line, run, acts, w);
      assert Goes(line, run, acts, w);
      StepDecreases(line, run(w), acts(w), i, k);
      t' := QuietAfter(line, run, acts, i, k, w + 1, MeasureOf(run(w + 1), i, k));
    } else {
      t' := t;
    }
  }

  lemma {:induction false} AllQuiet(line: Line, run: nat -> State, acts: nat -> Action, i: nat, k: nat) returns (t: nat)
    requires Forever(line, run, acts) && StopsAt(line, k) && i <= line.Size()
    ensures OnlyFrom(acts, i, t)
  {
    if i == 0 {
      t := CallerQuiet(line, run, acts);
    } else {
      t := AllQuiet(line, run, acts, i - 1, k);
      assert Goes(line, run, acts, t);
      t := QuietAfter(line, run, acts, i - 1, k, t, MeasureOf(run(t), i - 1, k));
    }
  }

  /** The caller cancels at most once. */
  lemma CallerQuiet(line: Line, run: nat -> State, acts: nat -> Action) returns (t: nat)
    requires Forever(line, run, acts)
    ensures OnlyFrom(acts, 0, t)
  {
    if u: nat :| acts(u) == CallerCancels {
      t := u + 1;
      forall w: nat | w >= t
        ensures acts(w) != CallerCancels
      {
        assert Goes(line, run, acts, u);
        ParentStays(line, run, acts, u + 1, w);
        assert Goes(line, run, acts, w);
      }
    } else {
      t := 0;
    }
  }

  lemma {:induction false} ParentStays(line: Line, run: nat -> State, acts: nat -> Action, t: nat, w: nat)
    requires Forever(line, run, acts) && t <= w && run(t).parent
    ensures run(w).parent
  {
    if t < w {
      ParentStays(line, run, acts, t, w - 1);
      assert Goes(line, run, acts, w - 1);
    }
  }

  lemma SomeoneMoves(line: Line, run: nat -> State, acts: nat -> Action, t: nat)
    requires Forever(line, run, acts) && !acts(t).CallerCancels?
    ensures acts(t).i < line.Size()
  {
    assert Goes(line, run, acts, t);
  }

  /** With a source that stops, there is no infinite run, whatever the scheduler does. */
  lemma EveryRunEnds(line: Line, run: nat -> State, acts: nat -> Action, k: nat)
    requires StopsAt(line, k)
    ensures !Forever(line, run, acts)
  {
    if Forever(line, run, acts) {
      var t := AllQuiet(line, run, acts, line.Size(), k);
      SomeoneMoves(line, run, acts, t);
    }
  }
}
