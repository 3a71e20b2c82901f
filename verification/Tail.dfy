/** Following a changes feed across reconnects (internal/command/tail.go), on the delivery
    contract of ChangesFollow (internal/couch/bulk.go). */
module Tail {
  import opened Wrappers

  datatype Change = Change(seqno: string, id: string)

  function IndexOf(changes: seq<Change>, since: string): (k: nat)
    ensures k <= |changes|
    ensures k < |changes| ==> changes[k].seqno == since
    ensures forall j :: 0 <= j < k ==> changes[j].seqno != since
  {
    if changes == [] || changes[0].seqno == since then 0 else 1 + IndexOf(changes[1..], since)
  }

  /** An append-only feed: all it will ever hold, from the sequence `origin` on. */
  datatype Feed = Feed(origin: string, changes: seq<Change>) {
    predicate Valid() {
      && (forall i, j :: 0 <= i < j < |changes| ==> changes[i].seqno != changes[j].seqno)
      && (forall i :: 0 <= i < |changes| ==> changes[i].seqno != origin)
    }

    /** The sequence a reader of the first k changes has reached. */
    function SeqAt(k: nat): string
      requires k <= |changes|
    {
      if k == 0 then origin else changes[k - 1].seqno
    }

    predicate Knows(since: string) { since == origin || IndexOf(changes, since) < |changes| }

    /** The server's reading of `since`: how much of the feed lies up to it. */
    function Position(since: string): (k: nat)
      requires Knows(since)
      ensures k <= |changes| && SeqAt(k) == since
    {
      if since == origin then 0 else IndexOf(changes, since) + 1
    }

    lemma PositionOfSeq(k: nat)
      requires Valid() && k <= |changes|
      ensures Knows(SeqAt(k)) && Position(SeqAt(k)) == k
    {
    }
  }

  /** One line of a feed's body: a change that is handed on, a change that does not decode -
      torn, or anything unexpected - and is skipped, a change whose hand-over the operator's
      cancel beats, or something with no id: a heartbeat, the closing last_seq, a mid-stream
      error. */
  datatype Line = HasChange | Garbled | CutOff | NoId

  datatype Err = Canceled | Unreachable | Status(code: nat) | TooLarge | Other

  /** How one request went: the lines its body held, how it ended, and whether the operator
      cancelled - while it ran, or while waiting to reconnect. */
  datatype Round = Round(lines: seq<Line>, end: Option<Err>, cancelled: bool, sleepCancelled: bool)

  /** tailReconnectable: a body that ended, an unreachable server and a 5xx are a feed that
      dropped; anything else will not fix itself.  TooLarge is a 413. */
  predicate Reconnectable(end: Option<Err>) {
    end.None? || end.value.Unreachable? || (end.value.Status? && end.value.code >= 500)
  }

  lemma ReconnectableIs(code: nat)
    ensures Reconnectable(None) && Reconnectable(Some(Unreachable))
    ensures Reconnectable(Some(Status(code))) <==> code >= 500
    ensures !Reconnectable(Some(Canceled)) && !Reconnectable(Some(TooLarge)) && !Reconnectable(Some(Other))
  {
  }

  /** tailBackoff, in seconds. */
  function Backoff(attempt: nat): (wait: nat)
    ensures 1 <= wait <= 30
    ensures attempt == 0 ==> wait == 1
    ensures 0 < attempt < 5 ==> wait == 2 * Backoff(attempt - 1)
    ensures attempt >= 5 ==> wait == 30
  {
    if attempt < 5 then [1, 2, 4, 8, 16][attempt] else 30
  }

  /** How many changes of a body are met: none once one is cut off. */
  function Seen(lines: seq<Line>): nat {
    if lines == [] then 0
    else
      var front, l := lines[..|lines| - 1], lines[|lines| - 1];
      Seen(front) + if l in {HasChange, Garbled} && CutOff !in front then 1 else 0
  }

  /** Which of its changes a body hands on, counted from the first it holds. */
  function Offsets(lines: seq<Line>): seq<nat> {
    if lines == [] then []
    else
      var front, l := lines[..|lines| - 1], lines[|lines| - 1];
      Offsets(front) + if l == HasChange && CutOff !in front then [Seen(front)] else []
  }

  function Count(lines: seq<Line>): nat { |Offsets(lines)| }

  /** How far a body takes its reader: past the last change handed on. */
  function Reach(lines: seq<Line>): nat {
    if Offsets(lines) == [] then 0 else Offsets(lines)[Count(lines) - 1] + 1
  }

  /** No change is skipped before one that is handed on. */
  predicate NoGap(lines: seq<Line>) {
    forall a, b :: 0 <= a < b < |lines| && lines[a] == Garbled && lines[b] == HasChange ==> CutOff in lines[..b]
  }

  predicate Rising(offs: seq<nat>, bound: nat) {
    && (forall k :: 0 <= k < |offs| ==> offs[k] < bound)
    && (forall a, b :: 0 <= a < b < |offs| ==> offs[a] < offs[b])
  }

  /** Requests one after another: how far they take their reader. */
  function ReachAll(rounds: seq<Round>): nat {
    if rounds == [] then 0 else ReachAll(rounds[..|rounds| - 1]) + Reach(rounds[|rounds| - 1].lines)
  }

  function Shifted(offs: seq<nat>, start: nat): (s: seq<nat>)
    ensures |s| == |offs| && forall k :: 0 <= k < |offs| ==> s[k] == offs[k] + start
  {
    seq(|offs|, k requires 0 <= k < |offs| => offs[k] + start)
  }

  /** And which changes they hand on, counted from where the first of them started: each
      request starts where the one before it got to. */
  function AllOffsets(rounds: seq<Round>): seq<nat> {
    if rounds == [] then [] else
      var front := rounds[..|rounds| - 1];
      AllOffsets(front) + Shifted(Offsets(rounds[|rounds| - 1].lines), ReachAll(front))
  }

  /** No body holds a change the feed does not have. */
  predicate Fits(feed: Feed, since: string, rounds: seq<Round>) {
    && feed.Knows(since)
    && forall k :: 0 <= k < |rounds| ==> feed.Position(since) + ReachAll(rounds[..k]) + Seen(rounds[k].lines) <= |feed.changes|
  }

  lemma {:induction false} SeenGrows(lines: seq<Line>, i: nat)
    requires i <= |lines|
    ensures Seen(lines[..i]) <= Seen(lines)
    decreases |lines|
  {
    if i < |lines| {
      assert lines[..|lines| - 1][..i] == lines[..i];
      SeenGrows(lines[..|lines| - 1], i);
    } else {
      assert lines[..i] == lines;
    }
  }

  lemma LineSnoc(lines: seq<Line>, i: nat)
    requires i < |lines|
    ensures Seen(lines[..i + 1]) == Seen(lines[..i]) + if lines[i] in {HasChange, Garbled} && CutOff !in lines[..i] then 1 else 0
    ensures Offsets(lines[..i + 1]) == Offsets(lines[..i]) + if lines[i] == HasChange && CutOff !in lines[..i] then [Seen(lines[..i])] else []
  {
    assert lines[..i + 1][..i] == lines[..i];
  }

  /** After a cut nothing more is met. */
  lemma {:induction false} NothingAfter(lines: seq<Line>, i: nat)
    requires i < |lines| && lines[i] == CutOff
    ensures Seen(lines) == Seen(lines[..i]) && Offsets(lines) == Offsets(lines[..i])
    decreases |lines|
  {
    var front := lines[..|lines| - 1];
    if i < |front| {
      assert front[i] in front && front[..i] == lines[..i];
      NothingAfter(front, i);
    } else {
      assert front == lines[..i];
    }
  }

  lemma {:induction false} OffsetsRise(lines: seq<Line>)
    ensures Rising(Offsets(lines), Seen(lines)) && Count(lines) <= Reach(lines) <= Seen(lines)
  {
    if lines != [] {
      OffsetsRise(lines[..|lines| - 1]);
    }
  }

  lemma {:induction false} SkipsIff(lines: seq<Line>)
    requires CutOff !in lines
    ensures Count(lines) == Seen(lines) <==> Garbled !in lines
    ensures Count(lines) <= Seen(lines)
  {
    if lines != [] {
      var front, l := lines[..|lines| - 1], lines[|lines| - 1];
      assert lines == front + [l];
      SkipsIff(front);
    }
  }

  lemma GapSnoc(front: seq<Line>, l: Line)
    ensures NoGap(front + [l]) <==> NoGap(front) && (l == HasChange && CutOff !in front ==> Garbled !in front)
  {
    var lines := front + [l];
    assert forall b :: 0 <= b <= |front| ==> lines[..b] == front[..b];
    assert front[..|front|] == front;
    if l == HasChange && CutOff !in front && Garbled in front {
      var a :| 0 <= a < |front| && front[a] == Garbled;
      assert lines[a] == Garbled && lines[|front|] == HasChange && CutOff !in lines[..|front|];
    }
  }

  /** Exactly when no change is lost in a body: what is handed on is then all of it up to
      where its reader got. */
  lemma {:induction false} WholeIff(lines: seq<Line>)
    ensures Count(lines) == Reach(lines) <==> NoGap(lines)
    ensures NoGap(lines) ==> forall k :: 0 <= k < Count(lines) ==> Offsets(lines)[k] == k
  {
    if lines != [] {
      var front, l := lines[..|lines| - 1], lines[|lines| - 1];
      assert lines == front + [l];
      WholeIff(front);
      GapSnoc(front, l);
      hide NoGap;
      if l == HasChange && CutOff !in front {
        SkipsIff(front);
        if Garbled !in front {
          assert NoGap(front) by { NoneSkipped(front); }
        }
      }
    }
  }

  lemma NoneSkipped(lines: seq<Line>)
    requires Garbled !in lines
    ensures NoGap(lines)
  {
  }

  /** A reader that started after p changes has been handed those at these offsets, and
      stands `reach` changes further. */
  ghost predicate At(feed: Feed, p: nat, handed: seq<Change>, since: string, offs: seq<nat>, reach: nat) {
    && p + reach <= |feed.changes| && since == feed.SeqAt(p + reach)
    && |handed| == |offs| && Rising(offs, reach)
    && forall k :: 0 <= k < |offs| ==> handed[k] == feed.changes[p + offs[k]]
  }

  /** How many requests up to number k have brought nothing since one last brought a change,
      that one counted; the first request of all counts as none. */
  function Fruitless(rounds: seq<Round>, k: nat): nat
    requires k < |rounds|
  {
    if k == 0 || Count(rounds[k].lines) > 0 then 0 else Fruitless(rounds, k - 1) + 1
  }

  /** Requests that brought nothing, behind one that brought a change or the first of all. */
  lemma {:induction false} FruitlessMeans(rounds: seq<Round>, j: nat, k: nat)
    requires j <= k < |rounds| && (j == 0 || exists i :: 0 <= i < |rounds[j].lines| && Handed(rounds[j].lines, i))
    requires forall r, i :: j < r <= k && 0 <= i < |rounds[r].lines| ==> !Handed(rounds[r].lines, i)
    ensures Fruitless(rounds, k) == k - j
  {
    CountsHanded(rounds[k].lines);
    if j < k {
      FruitlessMeans(rounds, j, k - 1);
    }
  }

  predicate Handed(lines: seq<Line>, i: nat) { i < |lines| && lines[i] == HasChange && CutOff !in lines[..i] }

  lemma {:induction false} CountsHanded(lines: seq<Line>)
    ensures Count(lines) > 0 <==> exists i :: 0 <= i < |lines| && Handed(lines, i)
  {
    if lines != [] {
      var n := |lines| - 1;
      CountsHanded(lines[..n]);
      forall i | 0 <= i < n
        ensures Handed(lines[..n], i) <==> Handed(lines, i)
      {
        assert lines[..n][..i] == lines[..i];
      }
      assert Handed(lines, n) <==> lines[n] == HasChange && CutOff !in lines[..n];
    }
  }

  /** The notice after request k: it reconnects from the last change handed on, after a wait
      that starts again from one second whenever a change came through. */
  ghost predicate NoticeOk(feed: Feed, p: nat, rounds: seq<Round>, k: nat, notice: (string, nat))
    requires k < |rounds|
  {
    var n := p + ReachAll(rounds[..k + 1]);
    n <= |feed.changes| && notice.0 == feed.SeqAt(n) && notice.1 == Backoff(Fruitless(rounds, k))
  }

  /** Why the follow ends after a request, if it does: the operator's cancel wins over
      anything the request reports. */
  function Why(round: Round): Option<Err> {
    if CutOff in round.lines || round.cancelled then Some(Canceled)
    else if !Reconnectable(round.end) then round.end
    else if round.sleepCancelled then Some(Canceled)
    else None
  }

  /** Cancelled in the middle of a request it is Canceled, whatever the request reports; a
      feed that dropped ends it only if the wait is cancelled; any other error is its own. */
  lemma WhyIs(round: Round)
    ensures CutOff in round.lines || round.cancelled ==> Why(round) == Some(Canceled)
    ensures CutOff !in round.lines && !round.cancelled ==>
              match round.end
              case None => Why(round) == if round.sleepCancelled then Some(Canceled) else None
              case Some(e) =>
                if e.Unreachable? || (e.Status? && e.code >= 500)
                then Why(round) == if round.sleepCancelled then Some(Canceled) else None
                else Why(round) == Some(e)
  {
  }

  /** tailFollow's producer. */
  class Producer {
    const feed: Feed
    var since: string
    var attempt: nat
    var handed: seq<Change> // all it has put in the channel

    constructor (feed: Feed, start: string)
      ensures this.feed == feed && since == start && handed == [] && attempt == 0
    {
      this.feed, since, attempt, handed := feed, start, 0, [];
    }

    /** ChangesFollow: one request, from `since`; each change of its body that decodes is
        handed on and becomes the new `since`, until the callback meets the cancellation. */
    method ChangesFollow(ghost p: nat, ghost offs: seq<nat>, ghost reach: nat, lines: seq<Line>) returns (stopped: bool)
      requires feed.Valid() && At(feed, p, handed, since, offs, reach) && p + reach + Seen(lines) <= |feed.changes|
      modifies this
      ensures At(feed, p, handed, since, offs + Shifted(Offsets(lines), reach), reach + Reach(lines))
      ensures attempt == if Count(lines) > 0 then 0 else old(attempt)
      ensures stopped <==> CutOff in lines
    {
      hide At, Feed.Position, Feed.Knows, Feed.Valid, Rising, Seen, Offsets;
      StandsAt(feed, p, handed, since, offs, reach);
      NoLines();
      feed.PositionOfSeq(p + reach);
      var at := feed.Position(since);
      assert lines[..0] == [] && offs + Shifted([], reach) == offs;
      for j := 0 to |lines|
        invariant CutOff !in lines[..j] && at == p + reach + Seen(lines[..j])
        invariant At(feed, p, handed, since, offs + Shifted(Offsets(lines[..j]), reach), reach + Reach(lines[..j]))
        invariant attempt == if Count(lines[..j]) > 0 then 0 else old(attempt)
      {
        NextLine(offs, reach, lines, j);
        SeenGrows(lines, j + 1);
        if lines[j] == CutOff {
          NothingAfter(lines, j);
          return true;
        }
        if lines[j] == HasChange {
          var r := feed.changes[at];
          OneMore(feed, p, handed, since, offs + Shifted(Offsets(lines[..j]), reach), reach + Reach(lines[..j]), at - p);
          handed := handed + [r];
          since, attempt := r.seqno, 0;
        }
        if lines[j] != NoId {
          at := at + 1;
        }
      }
      assert lines[..|lines|] == lines;
      return false;
    }

    /** The reconnect loop over the requests it makes, `made` of them.  It ends after the
        first that gives it a reason, or is still following when they are used up. */
    method Follow(rounds: seq<Round>) returns (reason: Option<Err>, notices: seq<(string, nat)>, made: nat)
      requires feed.Valid() && Fits(feed, since, rounds) && handed == [] && attempt == 0
      modifies this
      ensures made <= |rounds| && |notices| <= made <= |notices| + 1
      ensures At(feed, feed.Position(old(since)), handed, since, AllOffsets(rounds[..made]), ReachAll(rounds[..made]))
      ensures reason.None? ==> made == |rounds| == |notices|
      ensures reason.Some? ==> made > 0 && reason == Why(rounds[made - 1])
      ensures forall k :: 0 <= k < made && (reason.Some? ==> k < made - 1) ==> Why(rounds[k]) == None
      ensures forall k :: 0 <= k < |notices| ==> NoticeOk(feed, feed.Position(old(since)), rounds, k, notices[k])
    {
      hide At, Feed.Position, Feed.Knows, Feed.Valid, Rising, NoticeOk, Shifted, Seen, Offsets, Reach, AllOffsets, ReachAll, Backoff;
      ghost var p := feed.Position(since);
      assert At(feed, p, handed, since, [], 0) by {
        StartsAt(feed, since);
      }
      NoRounds();
      assert rounds[..0] == [];
      notices := [];
      for i := 0 to |rounds|
        invariant |notices| == i && At(feed, p, handed, since, AllOffsets(rounds[..i]), ReachAll(rounds[..i]))
        invariant attempt == if i == 0 then 0 else Fruitless(rounds, i - 1) + 1
        invariant forall k :: 0 <= k < i ==> NoticeOk(feed, p, rounds, k, notices[k]) && Why(rounds[k]) == None
      {
        RoundSnoc(rounds, i);
        var stopped := ChangesFollow(p, AllOffsets(rounds[..i]), ReachAll(rounds[..i]), rounds[i].lines);
        if stopped || rounds[i].cancelled {
          return Some(Canceled), notices, i + 1;
        }
        if !Reconnectable(rounds[i].end) {
          return rounds[i].end, notices, i + 1;
        }
        NoticeIs(feed, p, handed, since, rounds, i);
        notices := notices + [(since, Backoff(attempt))];
        attempt := attempt + 1;
        if rounds[i].sleepCancelled {
          return Some(Canceled), notices, i + 1;
        }
      }
      assert rounds[..|rounds|] == rounds;
      return None, notices, |rounds|;
    }
  }

  lemma RoundSnoc(rounds: seq<Round>, i: nat)
    requires i < |rounds|
    ensures ReachAll(rounds[..i + 1]) == ReachAll(rounds[..i]) + Reach(rounds[i].lines)
    ensures AllOffsets(rounds[..i + 1]) == AllOffsets(rounds[..i]) + Shifted(Offsets(rounds[i].lines), ReachAll(rounds[..i]))
  {
    assert rounds[..i + 1][..i] == rounds[..i];
  }

  /** One more change is handed on. */
  lemma OneMore(feed: Feed, p: nat, handed: seq<Change>, since: string, offs: seq<nat>, reach: nat, k: nat)
    requires At(feed, p, handed, since, offs, reach) && reach <= k && p + k < |feed.changes|
    ensures At(feed, p, handed + [feed.changes[p + k]], feed.changes[p + k].seqno, offs + [k], k + 1)
  {
  }

  lemma NextLine(offs: seq<nat>, reach: nat, lines: seq<Line>, i: nat)
    requires i < |lines| && CutOff !in lines[..i]
    ensures CutOff !in lines[..i + 1] <==> lines[i] != CutOff
    ensures Seen(lines[..i + 1]) == Seen(lines[..i]) + if lines[i] in {HasChange, Garbled} then 1 else 0
    ensures Reach(lines[..i]) <= Seen(lines[..i])
    ensures var l, m := lines[..i], lines[..i + 1];
            if lines[i] == HasChange
            then Reach(m) == Seen(l) + 1 && Count(m) > 0 && offs + Shifted(Offsets(m), reach) == offs + Shifted(Offsets(l), reach) + [reach + Seen(l)]
            else Offsets(m) == Offsets(l)
  {
    LineSnoc(lines, i);
    OffsetsRise(lines[..i]);
    hide Offsets, Seen, Rising;
    assert lines[..i + 1] == lines[..i] + [lines[i]];
    if lines[i] == HasChange {
      var l, m := lines[..i], lines[..i + 1];
      assert Shifted(Offsets(m), reach) == Shifted(Offsets(l), reach) + [reach + Seen(l)];
      assert offs + (Shifted(Offsets(l), reach) + [reach + Seen(l)]) == offs + Shifted(Offsets(l), reach) + [reach + Seen(l)];
    }
  }

  lemma NoticeIs(feed: Feed, p: nat, handed: seq<Change>, since: string, rounds: seq<Round>, k: nat)
    requires k < |rounds| && At(feed, p, handed, since, AllOffsets(rounds[..k + 1]), ReachAll(rounds[..k + 1]))
    ensures NoticeOk(feed, p, rounds, k, (since, Backoff(Fruitless(rounds, k))))
  {
    hide Rising, AllOffsets, ReachAll;
  }

  lemma NoLines()
    ensures Offsets([]) == [] && Seen([]) == 0
  {
  }

  lemma NoRounds()
    ensures AllOffsets([]) == [] && ReachAll([]) == 0
  {
  }

  lemma StartsAt(feed: Feed, since: string)
    requires feed.Knows(since)
    ensures At(feed, feed.Position(since), [], since, [], 0)
  {
  }

  lemma StandsAt(feed: Feed, p: nat, handed: seq<Change>, since: string, offs: seq<nat>, reach: nat)
    requires At(feed, p, handed, since, offs, reach)
    ensures p + reach <= |feed.changes| && since == feed.SeqAt(p + reach)
  {
  }

  // ---------------------------------------------------------------- when no change is lost

  /** The first requests hand on the first changes. */
  lemma {:induction false} OffsetsGrow(rounds: seq<Round>, i: nat)
    requires i <= |rounds|
    ensures AllOffsets(rounds[..i]) <= AllOffsets(rounds)
    decreases |rounds|
  {
    if i < |rounds| {
      assert rounds[..|rounds| - 1][..i] == rounds[..i];
      OffsetsGrow(rounds[..|rounds| - 1], i);
    } else {
      assert rounds[..i] == rounds;
    }
  }

  ghost predicate NoGaps(rounds: seq<Round>) {
    forall k :: 0 <= k < |rounds| ==> NoGap(rounds[k].lines)
  }

  lemma {:induction false} AllWholeIff(rounds: seq<Round>)
    ensures |AllOffsets(rounds)| <= ReachAll(rounds)
    ensures |AllOffsets(rounds)| == ReachAll(rounds) <==> NoGaps(rounds)
    ensures NoGaps(rounds) ==> forall k :: 0 <= k < |AllOffsets(rounds)| ==> AllOffsets(rounds)[k] == k
  {
    if rounds != [] {
      var n := |rounds| - 1;
      AllWholeIff(rounds[..n]);
      OffsetsRise(rounds[n].lines);
      WholeIff(rounds[n].lines);
      hide NoGap, Offsets, Reach, Rising;
      assert NoGaps(rounds) <==> NoGaps(rounds[..n]) && NoGap(rounds[n].lines);
    }
  }

  /** Across any reconnects, the changes handed on are a contiguous run up to where the
      follow stands if and only if no body skipped a change before one it handed on.  A
      body torn in its last line loses nothing: the next request asks for that change. */
  lemma ContiguousIff(feed: Feed, p: nat, handed: seq<Change>, since: string, rounds: seq<Round>)
    requires At(feed, p, handed, since, AllOffsets(rounds), ReachAll(rounds))
    ensures handed == feed.changes[p..p + ReachAll(rounds)] <==> NoGaps(rounds)
  {
    AllWholeIff(rounds);
    hide Rising, AllOffsets, ReachAll, NoGaps;
  }

  /** The first changes handed on in the first requests. */
  lemma FirstHanded(feed: Feed, p: nat, handed: seq<Change>, since: string, rounds: seq<Round>, made: nat, n: nat)
    requires made <= |rounds| && n <= |handed|
    requires At(feed, p, handed, since, AllOffsets(rounds[..made]), ReachAll(rounds[..made]))
    ensures |handed| <= |AllOffsets(rounds)| && (made == |rounds| ==> |handed| == |AllOffsets(rounds)|)
    ensures p <= |feed.changes| && Rising(AllOffsets(rounds)[..n], |feed.changes| - p)
    ensures forall k :: 0 <= k < n ==> handed[k] == feed.changes[p + AllOffsets(rounds)[k]]
    ensures NoGaps(rounds) ==> p + n <= |feed.changes| && handed[..n] == feed.changes[p..p + n]
  {
    hide AllOffsets, ReachAll, NoGaps;
    OffsetsGrow(rounds, made);
    assert rounds[..|rounds|] == rounds;
    AllWholeIff(rounds);
    AllWholeIff(rounds[..made]);
  }

  lemma GarbledLosesAChange()
    ensures Offsets([Garbled, HasChange]) == [1] && !NoGap([Garbled, HasChange])
    ensures Offsets([HasChange, Garbled]) == [0] && Reach([HasChange, Garbled]) == 1 && NoGap([HasChange, Garbled])
  {
    var torn, lost := [HasChange, Garbled], [Garbled, HasChange];
    assert torn[..1] == [HasChange] && lost[..1] == [Garbled] && torn[..1][..0] == [] && lost[..1][..0] == [];
    assert lost[0] == Garbled && lost[1] == HasChange && CutOff !in lost[..1];
    LineSnoc(torn, 0);
    LineSnoc(lost, 0);
  }

  /** The consumer's side: what the producer has put in the channel, and why it left. */
  class Stream {
    var waiting: seq<Change>   // handed over by the producer, not yet read
    const why: Option<Err>     // what the producer reports on leaving
    var ended: bool
    var reason: Option<Err>

    constructor (handed: seq<Change>, why: Option<Err>)
      ensures waiting == handed && this.why == why && !ended
    {
      waiting, this.why := handed, why;
      ended, reason := false, None;
    }

    /** While the producer is still following and nothing waits, Next would block. */
    predicate Blocks()
      reads this
    {
      !ended && waiting == [] && why.None?
    }

    /** Next: a change while there is one; then the reason, for ever. */
    method Next() returns (r: Option<Change>, err: Option<Err>)
      requires !Blocks()
      modifies this
      ensures !old(ended) && old(waiting) != [] ==> r == Some(old(waiting)[0]) && err == None && waiting == old(waiting)[1..] && !ended
      ensures !old(ended) && old(waiting) == [] ==> r == None && err == why && ended && reason == why && waiting == []
      ensures old(ended) ==> r == None && err == old(reason) && ended && reason == old(reason) && waiting == old(waiting)
    {
      if ended {
        return None, reason;
      }
      if waiting == [] {
        ended, reason := true, why;
        return None, reason;
      }
      r, err := Some(waiting[0]), None;
      waiting := waiting[1..];
    }
  }

  /** n reads of a stream, or as many as do not block. */
  method Read(s: Stream, n: nat) returns (got: seq<Change>, errs: seq<Option<Err>>)
    requires !s.ended
    modifies s
    ensures got <= old(s.waiting) && |got| + |errs| <= n
    ensures errs != [] ==> got == old(s.waiting) && s.why.Some? && forall k :: 0 <= k < |errs| ==> errs[k] == s.why
    ensures |got| + |errs| < n ==> got == old(s.waiting) && s.why.None?
  {
    got, errs := [], [];
    ghost var all := s.waiting;
    while |got| + |errs| < n && !s.Blocks()
      invariant |got| + |errs| <= n && |got| <= |all| && got == all[..|got|]
      invariant if s.ended then s.reason == s.why && s.why.Some? && |got| == |all| else s.waiting == all[|got|..] && errs == []
      invariant forall k :: 0 <= k < |errs| ==> errs[k] == s.why
      decreases n - |got| - |errs|
    {
      var r, err := s.Next();
      if r.Some? {
        got := got + [r.value];
      } else {
        errs := errs + [err];
      }
    }
  }

  /** Following and reading: the changes read are those the requests handed on, in order,
      none twice; with no change skipped they are a contiguous run of the feed from the
      starting sequence; and once the follow has ended every further read gives its one
      reason. */
  method ReadFollow(feed: Feed, start: string, rounds: seq<Round>, n: nat)
    returns (got: seq<Change>, errs: seq<Option<Err>>, reason: Option<Err>)
    requires feed.Valid() && Fits(feed, start, rounds)
    ensures |got| <= |AllOffsets(rounds)|
    ensures Rising(AllOffsets(rounds)[..|got|], |feed.changes| - feed.Position(start))
    ensures forall k :: 0 <= k < |got| ==> got[k] == feed.changes[feed.Position(start) + AllOffsets(rounds)[k]]
    ensures NoGaps(rounds) ==>
              feed.Position(start) + |got| <= |feed.changes| && got == feed.changes[feed.Position(start)..feed.Position(start) + |got|]
    ensures |got| + |errs| <= n && forall k :: 0 <= k < |errs| ==> errs[k] == reason && reason.Some?
    ensures |got| + |errs| < n ==> reason.None? && errs == [] && |got| == |AllOffsets(rounds)|
  {
    hide Feed.Position, AllOffsets, ReachAll, Fits, Reconnectable, NoticeOk, NoGaps, At, Rising;
    var producer := new Producer(feed, start);
    var notices, made;
    reason, notices, made := producer.Follow(rounds);
    ghost var handed, p := producer.handed, feed.Position(start);
    var s := new Stream(producer.handed, reason);
    got, errs := Read(s, n);
    assert got == handed[..|got|];
    FirstHanded(feed, p, handed, producer.since, rounds, made, |got|);
  }
}
