/** The virtual path grammar (internal/path/path.go): how a typed path is cleaned against
    the working directory, and what it then names. */
module Path {
  import opened Wrappers

  // ---------------------------------------------------------------- segments

  /** strings.Split(p, "/"). */
  function RawSplit(p: string): (parts: seq<string>)
    ensures parts != []
  {
    if p == "" then [""] else Put(RawSplit(p[..|p| - 1]), p[|p| - 1])
  }

  /** One more character: a new part, or the last one longer. */
  function Put(parts: seq<string>, c: char): (more: seq<string>)
    requires parts != []
    ensures more != []
  {
    var n := |parts| - 1;
    if c == '/' then parts + [""] else parts[..n] + [parts[n] + [c]]
  }

  lemma RawSplitSnoc(p: string, c: char)
    ensures RawSplit(p + [c]) == Put(RawSplit(p), c)
  {
    assert (p + [c])[..|p|] == p;
  }

  lemma PutAppend(a: seq<string>, b: seq<string>, c: char)
    requires b != []
    ensures Put(a + b, c) == a + Put(b, c)
  {
    assert (a + b)[..|a + b| - 1] == a + b[..|b| - 1];
  }

  function NonEmpty(parts: seq<string>): seq<string> {
    if parts == [] then []
    else
      var n := |parts| - 1;
      NonEmpty(parts[..n]) + (if parts[n] == "" then [] else [parts[n]])
  }

  function Split(p: string): seq<string> { NonEmpty(RawSplit(p)) }

  method SplitPath(p: string) returns (out: seq<string>)
    ensures out == Split(p)
  {
    out := [];
    var parts := RawSplit(p);
    for i := 0 to |parts|
      invariant out == NonEmpty(parts[..i])
    {
      assert parts[..i + 1][..i] == parts[..i];
      if parts[i] != "" {
        out := out + [parts[i]];
      }
    }
    assert parts[..|parts|] == parts;
  }

  /** "/" + strings.Join(segs, "/"). */
  function Join(segs: seq<string>): string {
    if segs == [] then "/"
    else
      var n := |segs| - 1;
      (if n == 0 then "" else Join(segs[..n])) + "/" + segs[n]
  }

  predicate IsSegment(s: string) { s != "" && '/' !in s }

  predicate Segments(segs: seq<string>) { forall k :: 0 <= k < |segs| ==> IsSegment(segs[k]) }

  lemma {:induction false} RawSplitAt(x: string, y: string)
    ensures RawSplit(x + "/" + y) == RawSplit(x) + RawSplit(y)
  {
    hide Put;
    if y == "" {
      RawSplitSnoc(x, '/');
      assert x + "/" + y == x + ['/'] && Put(RawSplit(x), '/') == RawSplit(x) + [""] by {
        PutSlash(RawSplit(x));
      }
    } else {
      var front, c := y[..|y| - 1], y[|y| - 1];
      RawSplitAt(x, front);
      RawSplitSnoc(x + "/" + front, c);
      PutAppend(RawSplit(x), RawSplit(front), c);
      assert x + "/" + y == x + "/" + front + [c];
    }
  }

  lemma PutSlash(parts: seq<string>)
    requires parts != []
    ensures Put(parts, '/') == parts + [""]
  {
  }

  lemma {:induction false} NonEmptyAppend(a: seq<string>, b: seq<string>)
    ensures NonEmpty(a + b) == NonEmpty(a) + NonEmpty(b)
  {
    if b == [] {
      assert a + b == a;
    } else {
      assert (a + b)[..|a + b| - 1] == a + b[..|b| - 1];
      NonEmptyAppend(a, b[..|b| - 1]);
    }
  }

  lemma SplitAt(x: string, y: string)
    ensures Split(x + "/" + y) == Split(x) + Split(y)
  {
    RawSplitAt(x, y);
    NonEmptyAppend(RawSplit(x), RawSplit(y));
  }

  lemma {:induction false} SplitOne(s: string)
    requires '/' !in s
    ensures RawSplit(s) == [s]
  {
    if s != "" {
      var front := s[..|s| - 1];
      assert s[|s| - 1] in s;
      SplitOne(front);
      assert front + [s[|s| - 1]] == s && [front][..0] == [];
    }
  }

  lemma SplitSegment(s: string)
    requires IsSegment(s)
    ensures Split(s) == [s]
  {
    SplitOne(s);
    var parts, none := [s], [s][..0];
    assert none == [] && NonEmpty(none) == [];
    assert NonEmpty(parts) == NonEmpty(none) + [s];
  }

  lemma SplitEmpty()
    ensures Split("") == []
  {
    assert [""][..0] == [];
  }

  /** Joining segments and splitting again is the identity. */
  lemma {:induction false} SplitJoin(segs: seq<string>)
    requires Segments(segs)
    ensures Split(Join(segs)) == segs
  {
    hide Split;
    if segs == [] {
      SplitRoot();
    } else {
      var n := |segs| - 1;
      if n == 0 {
        SplitEmpty();
        SplitAt("", segs[n]);
      } else {
        SplitJoin(segs[..n]);
        SplitAt(Join(segs[..n]), segs[n]);
      }
      SplitSegment(segs[n]);
      assert segs == segs[..n] + [segs[n]];
    }
  }

  lemma SplitRoot()
    ensures Split("/") == []
  {
    SplitEmpty();
    SplitAt("", "");
    assert "" + "/" + "" == "/";
  }

  lemma {:induction false} RawPieces(p: string)
    ensures forall k :: 0 <= k < |RawSplit(p)| ==> '/' !in RawSplit(p)[k]
  {
    if p != "" {
      RawPieces(p[..|p| - 1]);
    }
  }

  lemma {:induction false} NonEmptyKeeps(parts: seq<string>)
    requires forall k :: 0 <= k < |parts| ==> '/' !in parts[k]
    ensures Segments(NonEmpty(parts))
  {
    if parts != [] {
      NonEmptyKeeps(parts[..|parts| - 1]);
    }
  }

  lemma SplitSegments(p: string)
    ensures Segments(Split(p))
  {
    RawPieces(p);
    NonEmptyKeeps(RawSplit(p));
  }

  // ---------------------------------------------------------------- the walk

  datatype Error =
    | BaseNotAbsolute | BadEncoding(segment: string) | PartitionNeedsKey | DesignNeedsName
    | NotPartitionScoped | ExpectedIndex | IndexNeedsName | TooManySegments

  /** Where a walk stands: the segments, and the run of ".." that ends it so far. */
  datatype Walk = Walk(segs: seq<string>, pops: nat)

  predicate Exposed(segs: seq<string>) { |segs| == 2 && segs[1] == "_partition" }

  /** collapseSeparator. */
  function Collapse(segs: seq<string>): seq<string> {
    if Exposed(segs) then segs[..1] else segs
  }

  function Drop(segs: seq<string>): seq<string> {
    if segs == [] then [] else segs[..|segs| - 1]
  }

  function Step(w: Walk, s: string): Walk {
    if s == "." then w
    else if s == ".." then Walk(Drop(if w.pops > 0 then Collapse(w.segs) else w.segs), w.pops + 1)
    else Walk((if w.pops > 1 then Collapse(w.segs) else w.segs) + [s], 0)
  }

  function Walked(w: Walk, steps: seq<string>): Walk {
    if steps == [] then w else Step(Walked(w, steps[..|steps| - 1]), steps[|steps| - 1])
  }

  function Landed(w: Walk): seq<string> {
    if w.pops > 0 then Collapse(w.segs) else w.segs
  }

  lemma WalkedNone(w: Walk)
    ensures Walked(w, []) == w
  {
  }

  lemma WalkedSnoc(w: Walk, steps: seq<string>, i: nat)
    requires i < |steps|
    ensures Walked(w, steps[..i + 1]) == Step(Walked(w, steps[..i]), steps[i])
  {
    assert steps[..i + 1][..i] == steps[..i];
  }

  lemma WalkedThree(w: Walk, a: string, b: string, c: string)
    ensures Walked(w, [a]) == Step(w, a) && Walked(w, [a, b]) == Step(Step(w, a), b)
    ensures Walked(w, [a, b, c]) == Step(Step(Step(w, a), b), c)
  {
    assert [a, b, c][..2] == [a, b] && [a, b][..1] == [a] && [a][..0] == [];
  }

  /** Out of a partition: one ".." leads to the database, and a name behind it to the sibling
      partition; from a document of it, two lead to the database, and a name behind them is
      the database's own.  A separator typed out stays. */
  lemma OutOfAPartition(db: string, key: string, doc: string, name: string)
    requires name != "." && name != ".."
    ensures var place := Walk([db, "_partition", key], 0);
            && Landed(Walked(place, [".."])) == [db]
            && Landed(Walked(place, ["..", name])) == [db, "_partition", name]
            && Landed(Walked(place, ["..", ".", name])) == [db, "_partition", name]
            && Landed(Walked(place, ["..", ".."])) == []
    ensures var place := Walk([db, "_partition", key, doc], 0);
            && Landed(Walked(place, [".."])) == [db, "_partition", key]
            && Landed(Walked(place, ["..", ".."])) == [db]
            && Landed(Walked(place, ["..", "..", name])) == [db, name]
            && Landed(Walked(place, ["..", "..", ".."])) == []
    ensures Landed(Walked(Walk([db], 0), ["_partition"])) == [db, "_partition"]
    ensures Landed(Walked(Walk([db], 0), ["_partition", ".."])) == [db]
    ensures Landed(Walked(Walk([], 0), ["..", name])) == [name]
    ensures Landed(Walked(Walk([db, "_partition"], 0), ["..", "..", name])) == [name]
  {
    var one, two := [db, "_partition", key], [db, "_partition", key, doc];
    assert Drop(two) == one && Drop(one) == [db, "_partition"] && Drop([db, "_partition"]) == [db] && Drop([db]) == [];
    assert Collapse([db, "_partition"]) == [db];
    WalkedThree(Walk(one, 0), "..", name, "");
    WalkedThree(Walk(one, 0), "..", ".", name);
    WalkedThree(Walk(one, 0), "..", "..", "");
    WalkedThree(Walk(two, 0), "..", "..", name);
    WalkedThree(Walk(two, 0), "..", "..", "..");
    WalkedThree(Walk([db], 0), "_partition", "..", "");
    WalkedThree(Walk([], 0), "..", name, "");
    WalkedThree(Walk([db, "_partition"], 0), "..", "..", name);
    hide Walked, Drop;
  }

  predicate Absolute(p: string) { p != "" && p[0] == '/' }

  /** Where a walk from base over input begins. */
  function Start(base: string, input: string): Walk {
    Walk(if Absolute(input) then [] else Split(base), 0)
  }

  predicate GoodBase(base: string) { base == "" || Absolute(base) }

  function Cleaned(base: string, input: string): Result<string, Error> {
    if !GoodBase(base) then Err(BaseNotAbsolute)
    else Ok(Join(Landed(Walked(Start(base, input), Split(input)))))
  }

  /** Only a relative base is refused, an empty one is the root, and a path typed from the root
      does not ask for it. */
  lemma BasesAre(base: string, input: string)
    ensures Cleaned(base, input).Err? <==> base != "" && base[0] != '/'
    ensures Cleaned(base, input).Err? ==> Cleaned(base, input) == Err(BaseNotAbsolute)
    ensures Cleaned("", input) == Cleaned("/", input)
    ensures GoodBase(base) ==> Cleaned(base, "/" + input) == Cleaned("/", "/" + input)
  {
    SplitEmpty();
    SplitRoot();
    hide Split, Walked, Join, Landed;
  }

  method Clean(base: string, input: string) returns (r: Result<string, Error>)
    ensures r == Cleaned(base, input)
  {
    hide Split, Join, Walked;
    SplitRoot();
    SplitEmpty();
    var from := if base == "" then "/" else base;
    if !Absolute(from) {
      return Err(BaseNotAbsolute);
    }
    var segs: seq<string> := [];
    if !Absolute(input) {
      segs := SplitPath(from);
    }
    var pops := 0;
    var steps := SplitPath(input);
    WalkedNone(Start(base, input));
    for i := 0 to |steps|
      invariant 0 <= pops && Walk(segs, pops) == Walked(Start(base, input), steps[..i])
    {
      WalkedSnoc(Start(base, input), steps, i);
      var s := steps[i];
      if s == "." {
      } else if s == ".." {
        if pops > 0 {
          segs := Collapse(segs);
        }
        if |segs| > 0 {
          segs := segs[..|segs| - 1];
        }
        pops := pops + 1;
      } else {
        if pops > 1 {
          segs := Collapse(segs);
        }
        segs := segs + [s];
        pops := 0;
      }
    }
    assert steps[..|steps|] == steps;
    if pops > 0 {
      segs := Collapse(segs);
    }
    return Ok(Join(segs));
  }

  lemma {:induction false} WalkedAppend(w: Walk, a: seq<string>, b: seq<string>)
    ensures Walked(w, a + b) == Walked(Walked(w, a), b)
  {
    if b == [] {
      assert a + b == a;
    } else {
      assert (a + b)[..|a + b| - 1] == a + b[..|b| - 1];
      WalkedAppend(w, a, b[..|b| - 1]);
    }
  }

  lemma {:induction false} WalkedSegments(w: Walk, steps: seq<string>)
    requires Segments(w.segs) && Segments(steps)
    ensures Segments(Walked(w, steps).segs) && Segments(Landed(Walked(w, steps)))
  {
    if steps != [] {
      WalkedSegments(w, steps[..|steps| - 1]);
    }
  }

  // ---------------------------------------------------------------- composition

  /** The walk of x, from base. */
  function WalkOf(base: string, x: string): Walk { Walked(Start(base, x), Split(x)) }

  /** The two ways of going on from a walk: with its count of climbs, or from where it
      landed. */
  lemma BothWays(base: string, x: string, y: string)
    requires GoodBase(base) && x != "" && !Absolute(y)
    ensures Cleaned(base, x).Ok? && GoodBase(Cleaned(base, x).value)
    ensures Cleaned(base, x + "/" + y) == Ok(Join(Landed(Walked(WalkOf(base, x), Split(y)))))
    ensures Cleaned(Cleaned(base, x).value, y) == Ok(Join(Landed(Walked(Walk(Landed(WalkOf(base, x)), 0), Split(y)))))
  {
    SplitSegments(base);
    SplitSegments(x);
    SplitAt(x, y);
    WalkedAppend(Start(base, x), Split(x), Split(y));
    WalkedSegments(Start(base, x), Split(x));
    var c := Landed(WalkOf(base, x));
    SplitJoin(c);
    JoinAbsolute(c);
    hide Walked, Split, Join, Landed;
    assert (x + "/" + y)[0] == x[0];
  }

  lemma {:induction false} JoinAbsolute(segs: seq<string>)
    ensures Absolute(Join(segs))
  {
    if |segs| > 1 {
      JoinAbsolute(segs[..|segs| - 1]);
    }
  }

  predicate OnlyClimbs(steps: seq<string>) {
    forall k :: 0 <= k < |steps| ==> steps[k] == "." || steps[k] == ".."
  }

  /** Climbing on loses nothing by landing first. */
  lemma {:induction false} ClimbOn(w: Walk, steps: seq<string>)
    requires OnlyClimbs(steps)
    ensures var v, u := Walked(w, steps), Walked(Walk(Landed(w), 0), steps);
            Landed(v) == Landed(u) && (if u.pops > 0 then v.segs == u.segs && v.pops == w.pops + u.pops else v == w)
  {
    if steps != [] {
      ClimbOn(w, steps[..|steps| - 1]);
    }
  }

  /** A walk that ends on a name, or y that only climbs: composing is walking on. */
  lemma CleanComposes(base: string, x: string, y: string)
    requires GoodBase(base) && x != "" && !Absolute(y)
    requires WalkOf(base, x).pops == 0 || OnlyClimbs(Split(y))
    ensures Cleaned(base, x).Ok? && Cleaned(Cleaned(base, x).value, y) == Cleaned(base, x + "/" + y)
  {
    BothWays(base, x, y);
    if WalkOf(base, x).pops > 0 {
      ClimbOn(WalkOf(base, x), Split(y));
    }
  }

  /** n climbs in one path. */
  function Climbs(n: nat): (x: string)
    ensures x != ""
  {
    if n <= 1 then ".." else Climbs(n - 1) + "/.."
  }

  function ClimbOneByOne(base: string, n: nat): Result<string, Error> {
    if n == 0 then Ok(base)
    else
      match ClimbOneByOne(base, n - 1)
      case Err(e) => Err(e)
      case Ok(p) => Cleaned(p, "..")
  }

  lemma OneClimb(base: string, x: string)
    requires GoodBase(base) && x != ""
    ensures Cleaned(base, x).Ok? && Cleaned(Cleaned(base, x).value, "..") == Cleaned(base, x + "/" + "..")
  {
    SplitSegment("..");
    hide Cleaned, WalkOf, Split;
    CleanComposes(base, x, "..");
  }

  /** n climbs at once are n climbs one at a time. */
  lemma {:induction false} ClimbsAreSingleClimbs(base: string, n: nat)
    requires GoodBase(base) && n > 0
    ensures Cleaned(base, Climbs(n)) == ClimbOneByOne(base, n)
  {
    hide Cleaned;
    if n == 1 {
      assert ClimbOneByOne(base, 0) == Ok(base);
    } else {
      ClimbsAreSingleClimbs(base, n - 1);
      var x := Climbs(n - 1);
      assert Climbs(n) == x + "/" + ".." by {
        assert x + "/" + ".." == x + "/..";
      }
      hide WalkOf, Split, Climbs;
      OneClimb(base, x);
    }
  }

  /** Going on from where x landed forgets how it got there.  It matters for two walks that
      end in a climb: one step out of a partition, and one that stops on a partition. */
  predicate Forgets(w: Walk) {
    w.pops > 0 && ((w.pops == 1 && Exposed(w.segs)) || Exposed(Drop(Landed(w))))
  }

  /** Two walks that will land together, whatever comes. */
  predicate Alike(v: Walk, u: Walk) {
    || v == u
    || (v.pops > 1 && u.pops > 1 && v.segs == u.segs)
    || (v.pops > 0 && u.pops > 0 && v.segs == u.segs && !Exposed(v.segs))
  }

  lemma AlikeStep(v: Walk, u: Walk, s: string)
    requires Alike(v, u)
    ensures Alike(Step(v, s), Step(u, s)) && Landed(v) == Landed(u)
  {
  }

  lemma {:induction false} AlikeWalk(v: Walk, u: Walk, steps: seq<string>)
    requires Alike(v, u)
    ensures Alike(Walked(v, steps), Walked(u, steps)) && Landed(Walked(v, steps)) == Landed(Walked(u, steps))
  {
    if steps == [] {
      AlikeStep(v, u, ".");
    } else {
      var front := steps[..|steps| - 1];
      AlikeWalk(v, u, front);
      AlikeStep(Walked(v, front), Walked(u, front), steps[|front|]);
      AlikeStep(Walked(v, steps), Walked(u, steps), ".");
    }
  }

  /** A walk that forgets nothing lands with the walk from where it landed. */
  lemma {:induction false} LandTogether(w: Walk, steps: seq<string>)
    requires !Forgets(w)
    ensures Landed(Walked(w, steps)) == Landed(Walked(Walk(Landed(w), 0), steps))
    decreases |steps|
  {
    if steps == [] || w.pops == 0 {
    } else {
      var s, rest := steps[0], steps[1..];
      assert steps == [s] + rest;
      WalkedAppend(w, [s], rest);
      WalkedAppend(Walk(Landed(w), 0), [s], rest);
      assert [s][..0] == [];
      assert Walked(w, [s]) == Step(w, s) && Walked(Walk(Landed(w), 0), [s]) == Step(Walk(Landed(w), 0), s);
      if s == "." {
        LandTogether(w, rest);
      } else {
        AlikeWalk(Step(w, s), Step(Walk(Landed(w), 0), s), rest);
      }
    }
  }

  lemma WalkedOne(w: Walk, a: string)
    ensures Walked(w, [a]) == Step(w, a)
  {
    assert [a][..0] == [];
  }

  lemma WalkedTwo(w: Walk, a: string, b: string)
    ensures Walked(w, [a, b]) == Step(Step(w, a), b)
  {
    assert [a, b][..1] == [a];
    WalkedOne(w, a);
  }

  lemma ForgottenStep(w: Walk) returns (y: string)
    requires Forgets(w) && Segments(w.segs)
    ensures !Absolute(y) && Landed(Walked(w, Split(y))) != Landed(Walked(Walk(Landed(w), 0), Split(y)))
  {
    var u := Walk(Landed(w), 0);
    SplitSteps();
    if w.pops == 1 && Exposed(w.segs) {
      y := "q";
      WalkedOne(w, "q");
      WalkedOne(u, "q");
      hide Walked, Split;
      assert |Walked(w, ["q"]).segs| == 3 && |Walked(u, ["q"]).segs| == 2;
    } else {
      y := "../q";
      WalkedTwo(w, "..", "q");
      WalkedTwo(u, "..", "q");
      hide Walked, Split;
      assert |Walked(w, ["..", "q"]).segs| == 2 && |Walked(u, ["..", "q"]).segs| == 3;
    }
  }

  ghost predicate ComposesAlways(base: string, x: string)
    requires GoodBase(base)
  {
    forall y :: !Absolute(y) ==> Cleaned(base, x + "/" + y) == Cleaned(Cleaned(base, x).value, y)
  }

  /** Exactly when "cd x" and then any relative y lead where "cd x/y" does. */
  lemma ComposesExactly(base: string, x: string)
    requires GoodBase(base) && x != ""
    ensures Cleaned(base, x).Ok?
    ensures ComposesAlways(base, x) <==> !Forgets(WalkOf(base, x))
  {
    var w := WalkOf(base, x);
    if Forgets(w) {
      ForgottenPath(base, x);
    } else {
      forall y | !Absolute(y)
        ensures Cleaned(base, x + "/" + y) == Cleaned(Cleaned(base, x).value, y)
      {
        BothWays(base, x, y);
        LandTogether(w, Split(y));
      }
    }
  }

  lemma ForgottenPath(base: string, x: string)
    requires GoodBase(base) && x != "" && Forgets(WalkOf(base, x))
    ensures !ComposesAlways(base, x)
  {
    var w := WalkOf(base, x);
    SplitSegments(base);
    SplitSegments(x);
    WalkedSegments(Start(base, x), Split(x));
    var y := ForgottenStep(w);
    BothWays(base, x, y);
    SplitSegments(y);
    DifferentPaths(w, Split(y));
  }

  lemma SplitSteps()
    ensures Split("q") == ["q"] && Split("../q") == ["..", "q"]
  {
    SplitAt("..", "q");
    SplitSegment("q");
    SplitSegment("..");
    assert ".." + "/" + "q" == "../q" && [".."] + ["q"] == ["..", "q"];
  }

  lemma DifferentPaths(w: Walk, steps: seq<string>)
    requires Segments(w.segs) && Segments(steps)
    requires Landed(Walked(w, steps)) != Landed(Walked(Walk(Landed(w), 0), steps))
    ensures Join(Landed(Walked(w, steps))) != Join(Landed(Walked(Walk(Landed(w), 0), steps)))
  {
    WalkedSegments(w, steps);
    WalkedSegments(Walk(Landed(w), 0), steps);
    SplitJoin(Landed(Walked(w, steps)));
    SplitJoin(Landed(Walked(Walk(Landed(w), 0), steps)));
  }
}
