/** The shell's pipeline executor (internal/shell/pipeline.go) as an interleaved step system.

    Every stage but the last runs in its own goroutine and sends to the stage below over a
    channel of 64; the last runs on the caller's.  They share one cancellable context, the
    latch that keeps the first failure, and the gate that counts who has reported. */
module Pipeline {
  import opened Wrappers

  const STAGE_BUFFER := 64

  type Value = string // one JSON value, as its raw text

  /** context.Canceled, or any other error. */
  datatype Err = Canceled | Problem(text: string)

  datatype Failure = Failure(stage: nat, err: Err)

  /** What a stage does about one input: emit values and read on, emit values and return
      nil, or emit values and fail. */
  datatype Reaction = Emit(vals: seq<Value>) | Stop(vals: seq<Value>) | Fail(vals: seq<Value>, err: Err)

  /** A stage: a deterministic reader of values.  `react` is given all it has read so far,
      `finish` is asked once the stage above has closed.  `setup` is the error of a stage
      that cannot be prepared; `waits` says the last stage asks whether its source is live;
      `lags` marks put, rm and cat, which read on while values wait before they hand on. */
  datatype Process = Process(
    setup: Option<Err>,
    live: bool,
    waits: bool,
    lags: bool,
    react: seq<Value> -> Reaction,
    finish: seq<Value> -> Reaction)

  /** A parsed line ready to run.  Stage 0 reads no pipeline: it is told how often it has
      been asked, as that many empty values. */
  datatype Line = Line(stages: seq<Process>) {
    function Size(): nat { |stages| }

    predicate IsLast(i: nat) { i + 1 == Size() }
  }

  // ---------------------------------------------------------------- one stage on its own

  datatype Status = Open | Ended | Failed(err: Err)

  /** All a stage emits on some input, and how it stands afterwards. */
  datatype Outcome = Outcome(vals: seq<Value>, status: Status)

  function Then(o: Outcome, r: Reaction, open: Status): Outcome {
    match r
    case Emit(vs) => Outcome(o.vals + vs, open)
    case Stop(vs) => Outcome(o.vals + vs, Ended)
    case Fail(vs, e) => Outcome(o.vals + vs, Failed(e))
  }

  /** A stage that has read `input` and waits for more. */
  function Reading(p: Process, input: seq<Value>): Outcome {
    if input == [] then Outcome([], Open) else
      var before := Reading(p, input[..|input| - 1]);
      if before.status == Open then Then(before, p.react(input), Open) else before
  }

  /** A stage that has read `input` and seen its end. */
  function Closed(p: Process, input: seq<Value>): Outcome {
    var o := Reading(p, input);
    if o.status == Open then Then(o, p.finish(input), Ended) else o
  }

  // ---------------------------------------------------------------- the stages one after another

  function Ticks(k: nat): seq<Value> {
    if k == 0 then [] else Ticks(k - 1) + [""]
  }

  /** The line as a composition: stage i over the whole output of the stages above it, when
      the source has been asked k times.  No channels, no goroutines, no cancellation. */
  function Sequential(line: Line, i: nat, k: nat): Outcome
    requires i < line.Size()
  {
    var p := line.stages[i];
    if p.setup.Some? then Outcome([], Failed(p.setup.value))
    else if i == 0 then Reading(p, Ticks(k))
    else Consume(p, Sequential(line, i - 1, k))
  }

  function Consume(p: Process, above: Outcome): Outcome {
    if above.status == Ended then Closed(p, above.vals) else Reading(p, above.vals)
  }

  function Whole(line: Line, k: nat): Outcome
    requires line.Size() > 0
  {
    Sequential(line, line.Size() - 1, k)
  }

  /** What the composition of a whole line yields, when it ends well. */
  ghost predicate Computes(line: Line, vals: seq<Value>)
    requires line.Size() > 0
  {
    exists k: nat :: Whole(line, k) == Outcome(vals, Ended)
  }

  // ---------------------------------------------------------------- states

  /** Where a stage stands.  A producer that returns an error records it, then cancels, and
      only then runs its deferred calls: report, close the channel, leave. */
  datatype Pc =
    | Init | Ready | Running
    | Recording(err: Err) | Cancelling
    | Reporting | Closing | Leaving | Gone
    | Shutting(last: Option<Err>) | Joining(last: Option<Err>) | Over(result: Option<Failure>)

  datatype Return = NotYet | Fine | Bad

  datatype Local = Local(
    pc: Pc,
    hist: seq<Value>,            // everything it has read
    sawEnd: bool,                // it has seen the stage above close
    out: seq<Value>,             // emitted, not yet handed on
    ending: Option<Option<Err>>, // what it returns once out is handed on
    sent: seq<Value>,            // everything it has handed on
    reported: bool,
    ret: Return)
  {
    /** Its channel to the stage below is closed. */
    predicate Shut() { pc == Leaving || pc == Gone }
  }

  const START := Local(Init, [], false, [], None, [], false, NotYet)

  datatype State = State(
    locals: seq<Local>,
    chans: seq<seq<Value>>,      // chans[i] joins stage i to stage i + 1
    first: Option<Failure>,      // failure.first
    cancelled: bool,             // the line's own cancel has been called
    parent: bool,                // the caller's context is done
    live: bool,                  // liveness.live
    answer: Option<bool>,        // what sources.wait told the last stage
    own: bool)                   // a stage has itself failed with context.Canceled
  {
    predicate Done() { cancelled || parent }
  }

  function Initial(line: Line): State
    requires line.Size() > 0
  {
    State(seq(line.Size(), _ => START), seq(line.Size() - 1, _ => []), None, false, false, false, None, false)
  }

  predicate Shaped(line: Line, s: State) {
    line.Size() > 0 && |s.locals| == line.Size() && |s.chans| == line.Size() - 1
  }

  // ---------------------------------------------------------------- steps

  /** Go: the stage takes its next step.  ReadOn: a stage that lags takes one more waiting
      value into its batch.  GiveUp: a stage at a select or a request takes the ctx.Done()
      branch, whatever else is ready.  CallerCancels: Ctrl-C. */
  datatype Action = Go(i: nat) | ReadOn(i: nat) | GiveUp(i: nat) | CallerCancels

  /** After a reaction its values wait to be handed on, and perhaps an outcome with them.  A
      value that fails takes with it what its batch had to hand on. */
  function Absorb(l: Local, r: Reaction, atEnd: bool): Local {
    match r
    case Emit(vs) => l.(out := l.out + vs, ending := if atEnd then Some(None) else None)
    case Stop(vs) => l.(out := l.out + vs, ending := Some(None))
    case Fail(vs, e) => l.(out := if l.out == [] then vs else [], ending := Some(Some(e)))
  }

  predicate Reads(l: Local) {
    l.pc == Running && l.ending == None
  }

  predicate CanRead(l: Local) {
    Reads(l) && l.out == []
  }

  predicate AllReported(s: State)
    requires |s.locals| > 0
  {
    forall k :: 0 <= k < |s.locals| - 1 ==> s.locals[k].reported
  }

  predicate AllGone(s: State)
    requires |s.locals| > 0
  {
    forall k :: 0 <= k < |s.locals| - 1 ==> s.locals[k].pc == Gone
  }

  predicate Enabled(line: Line, s: State, a: Action)
    requires Shaped(line, s)
  {
    match a
    case CallerCancels => !s.parent
    case GiveUp(i) =>
      && i < line.Size() && s.Done()
      && (s.locals[i].pc == Init || CanRead(s.locals[i]) ||
          (s.locals[i].pc == Running && s.locals[i].out != [] && (!line.IsLast(i) || line.stages[i].lags)))
    case ReadOn(i) =>
      && 0 < i < line.Size() && line.stages[i].lags
      && Reads(s.locals[i]) && s.locals[i].out != [] && s.chans[i - 1] != []
    case Go(i) => i < line.Size() && CanGo(line, s, i, s.locals[i])
  }

  predicate CanGo(line: Line, s: State, i: nat, l: Local)
    requires Shaped(line, s) && i < line.Size()
  {
    match l.pc
    case Ready => line.IsLast(i) && line.stages[i].waits ==> AllReported(s)
    case Running =>
      if l.out != [] then line.IsLast(i) || |s.chans[i]| < STAGE_BUFFER
      else if l.ending.Some? then true
      else i == 0 || s.chans[i - 1] != [] || s.locals[i - 1].Shut()
    case Joining(_) => AllGone(s)
    case Gone => false
    case Over(_) => false
    case _ => true
  }

  function Apply(line: Line, s: State, a: Action): (t: State)
    requires Shaped(line, s) && Enabled(line, s, a)
    ensures Shaped(line, t)
  {
    match a
    case CallerCancels => s.(parent := true)
    case GiveUp(i) => Set(s, i, s.locals[i].(pc := Recording(Canceled), ret := Bad))
    case ReadOn(i) => Read(line, s, i, s.locals[i])
    case Go(i) => Step(line, s, i, s.locals[i])
  }

  function Set(s: State, i: nat, l: Local): State
    requires i < |s.locals|
  {
    s.(locals := s.locals[i := l])
  }

  function Step(line: Line, s: State, i: nat, l: Local): (t: State)
    requires Shaped(line, s) && i < line.Size() && l == s.locals[i] && CanGo(line, s, i, l)
    ensures Shaped(line, t)
  {
    if l.pc == Running then Work(line, s, i, l) else Set(Told(line, s, i, l.pc), i, Moved(line, s, i, l))
  }

  /** Where a stage that is not running goes next. */
  function Moved(line: Line, s: State, i: nat, l: Local): Local
    requires i < line.Size()
  {
    var last := line.IsLast(i);
    match l.pc
    case Init =>
      if line.stages[i].setup.Some? then Failing(l, line.stages[i].setup.value) else l.(pc := Ready)
    case Ready => l.(pc := Running, reported := !last)
    case Recording(e) => l.(pc := if last then Shutting(Some(e)) else Cancelling)
    case Cancelling => l.(pc := Reporting)
    case Reporting => l.(pc := Closing, reported := true)
    case Closing => l.(pc := Leaving)
    case Leaving => l.(pc := Gone)
    case Shutting(e) => l.(pc := Joining(e))
    case Joining(e) => l.(pc := Over(Result(s, e)))
    case _ => l
  }

  /** What it tells the others as it does. */
  function Told(line: Line, s: State, i: nat, pc: Pc): (t: State)
    requires i < line.Size()
    ensures t.locals == s.locals && t.chans == s.chans && t.parent == s.parent
  {
    var last := line.IsLast(i);
    match pc
    case Init => s.(own := s.own || line.stages[i].setup == Some(Canceled))
    case Ready =>
      if last then s.(answer := if line.stages[i].waits && i > 0 then Some(s.live) else None)
      else s.(live := s.live || (i == 0 && line.stages[0].live))
    case Recording(e) => s.(first := if s.first.None? then Some(Failure(i, e)) else s.first)
    case Cancelling => s.(cancelled := true)
    case Shutting(_) => s.(cancelled := true)
    case _ => s
  }

  /** A running stage hands on what it has, then returns or reads on. */
  function Work(line: Line, s: State, i: nat, l: Local): (t: State)
    requires Shaped(line, s) && i < line.Size() && l == s.locals[i] && l.pc == Running && CanGo(line, s, i, l)
    ensures Shaped(line, t)
  {
    if l.out != [] then HandOn(line, s, i, l)
    else if l.ending.Some? then Returning(s, i, l, line.IsLast(i))
    else Read(line, s, i, l)
  }

  /** send, or the append of a capture. */
  function HandOn(line: Line, s: State, i: nat, l: Local): (t: State)
    requires Shaped(line, s) && i < line.Size() && l.out != []
    ensures Shaped(line, t)
  {
    var s' := Set(s, i, l.(out := l.out[1..], sent := l.sent + [l.out[0]]));
    if line.IsLast(i) then s' else s'.(chans := s.chans[i := s.chans[i] + [l.out[0]]])
  }

  function Returning(s: State, i: nat, l: Local, last: bool): (t: State)
    requires i < |s.locals| && l.ending.Some?
    ensures OnlyMoves(s, t, i)
  {
    match l.ending.value
    case Some(e) => Fails(s, i, l, e)
    case None => Set(s, i, l.(pc := if last then Shutting(None) else Reporting, ret := Fine))
  }

  /** Only stage i's own state differs, channels and gate stand. */
  predicate OnlyMoves(s: State, t: State, i: nat)
    requires i < |s.locals|
  {
    && |t.locals| == |s.locals| && t.locals == s.locals[i := t.locals[i]]
    && t.chans == s.chans && t.live == s.live && t.answer == s.answer
  }

  /** A stage returns an error of its own. */
  function Fails(s: State, i: nat, l: Local, e: Err): (t: State)
    requires i < |s.locals|
    ensures OnlyMoves(s, t, i)
  {
    Set(s, i, Failing(l, e)).(own := s.own || e == Canceled)
  }

  function Failing(l: Local, e: Err): Local { l.(pc := Recording(e), ret := Bad) }

  /** receive: a value if there is one, the end if the stage above has closed. */
  function Read(line: Line, s: State, i: nat, l: Local): (t: State)
    requires Shaped(line, s) && i < line.Size()
    requires i == 0 || s.chans[i - 1] != [] || s.locals[i - 1].Shut()
    ensures Shaped(line, t)
  {
    var p := line.stages[i];
    if i == 0 then
      var l' := l.(hist := l.hist + [""]);
      Set(s, i, Absorb(l', p.react(l'.hist), false))
    else if s.chans[i - 1] != [] then
      var l' := l.(hist := l.hist + [s.chans[i - 1][0]]);
      Set(s, i, Absorb(l', p.react(l'.hist), false)).(chans := s.chans[i - 1 := s.chans[i - 1][1..]])
    else
      var l' := l.(sawEnd := true);
      Set(s, i, Absorb(l', p.finish(l'.hist), true))
  }

  /** execute's answer: the first failure recorded, except that the shutdown of a line whose
      last stage finished is no failure. */
  function Result(s: State, last: Option<Err>): Option<Failure> {
    if last.None? && !s.parent && s.first.Some? && s.first.value.err == Canceled then None else s.first
  }

  // ---------------------------------------------------------------- runs

  /** A state some run reaches. */
  function Execute(line: Line, s: State, acts: seq<Action>): Option<State>
    requires Shaped(line, s)
  {
    if acts == [] then Some(s) else
      match Execute(line, s, acts[..|acts| - 1])
      case None => None
      case Some(t) =>
        if Shaped(line, t) && Enabled(line, t, acts[|acts| - 1]) then Some(Apply(line, t, acts[|acts| - 1])) else None
  }

  ghost predicate Reachable(line: Line, s: State)
    requires line.Size() > 0
  {
    exists acts: seq<Action> :: Execute(line, Initial(line), acts) == Some(s)
  }

  /** What the line handed back or would render: everything the last stage has emitted. */
  function Collected(s: State): seq<Value>
    requires |s.locals| > 0
  {
    s.locals[|s.locals| - 1].sent
  }
}
