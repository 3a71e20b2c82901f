/** Listing a database page by page (internal/couch/database.go). */
module Paging {
  import opened Wrappers

  datatype Row = Row(id: string, body: string)

  /** What the server holds while it is listed: its rows in the order asked for, ascending
      or descending; `before` is that order. */
  datatype Listing = Listing(rows: seq<Row>, before: (string, string) -> bool) {
    ghost predicate Valid() {
      && (forall a, b :: before(a, b) ==> !before(b, a))
      && (forall a, b, c :: before(a, b) && before(b, c) ==> before(a, c))
      && (forall i, j :: 0 <= i < j < |rows| ==> before(rows[i].id, rows[j].id))
      && (forall i :: 0 <= i < |rows| ==> rows[i].id != "")
    }

    /** Between the two keys, both included; an empty key is no bound. */
    predicate In(r: Row, startKey: string, endKey: string) {
      (startKey == "" || !before(r.id, startKey)) && (endKey == "" || !before(endKey, r.id))
    }
  }

  /** Both bounds are included, each applies only when given, and nothing outside them is. */
  lemma BoundsAre(db: Listing, r: Row, startKey: string, endKey: string)
    requires db.Valid()
    ensures db.In(r, "", "")
    ensures db.In(r, r.id, "") && db.In(r, "", r.id) && db.In(r, r.id, r.id)
    ensures startKey != "" && db.before(r.id, startKey) ==> !db.In(r, startKey, endKey)
    ensures endKey != "" && db.before(endKey, r.id) ==> !db.In(r, startKey, endKey)
    ensures db.before(startKey, r.id) && db.before(r.id, endKey) ==> db.In(r, startKey, endKey)
  {
  }

  function Within(db: Listing, rows: seq<Row>, startKey: string, endKey: string): seq<Row> {
    if rows == [] then []
    else (if db.In(rows[0], startKey, endKey) then [rows[0]] else []) + Within(db, rows[1..], startKey, endKey)
  }

  /** All the rows a listing from startKey to endKey is about. */
  function Range(db: Listing, startKey: string, endKey: string): seq<Row> {
    Within(db, db.rows, startKey, endKey)
  }

  datatype Options = Options(startKey: string, endKey: string, limit: int)

  datatype Page = Page(rows: seq<Row>, nextKey: string)

  /** The server's contract: the first `limit` rows of the range, or all of it. */
  function Answer(db: Listing, opts: Options, limit: nat): (rows: seq<Row>)
    ensures rows <= Range(db, opts.startKey, opts.endKey)
    ensures opts.limit > 0 ==> |rows| <= limit
    ensures opts.limit <= 0 || |rows| < limit ==> rows == Range(db, opts.startKey, opts.endKey)
  {
    var r := Range(db, opts.startKey, opts.endKey);
    if opts.limit > 0 then r[..Min(limit, |r|)] else r
  }

  /** AllDocs: one row more than a page is asked for, and kept back as the next page's key. */
  method AllDocs(db: Listing, opts: Options) returns (page: Page)
    requires db.Valid()
    ensures var r := Range(db, opts.startKey, opts.endKey);
            if 0 < opts.limit < |r| then page.rows == r[..opts.limit] && page.nextKey == r[opts.limit].id != ""
            else page == Page(r, "")
  {
    var rows := Answer(db, opts, if opts.limit > 0 then opts.limit + 1 else 0);
    page := Page(rows, "");
    if opts.limit > 0 && |rows| > opts.limit {
      ghost var r := Range(db, opts.startKey, opts.endKey);
      WithinFrom(db, db.rows, opts.startKey, opts.endKey);
      assert r[opts.limit] in r && rows[opts.limit] == r[opts.limit];
      assert rows[..opts.limit] == r[..opts.limit];
      page := Page(rows[..opts.limit], rows[opts.limit].id);
    }
  }

  lemma {:induction false} WithinFrom(db: Listing, rows: seq<Row>, startKey: string, endKey: string)
    ensures forall r :: r in Within(db, rows, startKey, endKey) ==> r in rows && db.In(r, startKey, endKey)
  {
    if rows != [] {
      WithinFrom(db, rows[1..], startKey, endKey);
    }
  }

  lemma LaterIsAfter(db: Listing, rows: seq<Row>, startKey: string, endKey: string, r: Row)
    requires rows != [] && r in Within(db, rows[1..], startKey, endKey)
    requires forall i, j :: 0 <= i < j < |rows| ==> db.before(rows[i].id, rows[j].id)
    requires forall i :: 0 <= i < |rows| ==> rows[i].id != ""
    ensures db.before(rows[0].id, r.id) && r.id != ""
  {
    WithinFrom(db, rows[1..], startKey, endKey);
    var j :| 0 <= j < |rows[1..]| && rows[1..][j] == r;
    assert rows[j + 1] == r;
  }

  /** From a row's own id on, nothing before it is listed and nothing after it is missed. */
  lemma {:induction false} RestartAt(db: Listing, rows: seq<Row>, startKey: string, endKey: string, k: nat)
    requires db.Valid() && k < |Within(db, rows, startKey, endKey)|
    requires forall i, j :: 0 <= i < j < |rows| ==> db.before(rows[i].id, rows[j].id)
    requires forall i :: 0 <= i < |rows| ==> rows[i].id != ""
    ensures var all := Within(db, rows, startKey, endKey);
            Within(db, rows, all[k].id, endKey) == all[k..]
  {
    var all, rest := Within(db, rows, startKey, endKey), rows[1..];
    var key := all[k].id;
    var listed := db.In(rows[0], startKey, endKey);
    if listed && k == 0 {
      SameRest(db, rest, startKey, key, endKey, rows[0]);
      assert all[0..] == all;
    } else {
      var m := if listed then k - 1 else k;
      BehindFirst(db, rows, startKey, endKey, k);
      RestartAt(db, rest, startKey, endKey, m);
      LaterIsAfter(db, rows, startKey, endKey, all[k]);
      assert !db.In(rows[0], key, endKey);
      NotFirst(db, rows, key, endKey);
      hide Within, Listing.In, Listing.Valid;
    }
  }

  /** All but a first row that is not the one asked for. */
  lemma BehindFirst(db: Listing, rows: seq<Row>, startKey: string, endKey: string, k: nat)
    requires k < |Within(db, rows, startKey, endKey)| && rows != []
    requires db.In(rows[0], startKey, endKey) ==> k > 0
    ensures var all, rest := Within(db, rows, startKey, endKey), Within(db, rows[1..], startKey, endKey);
            var m := if db.In(rows[0], startKey, endKey) then k - 1 else k;
            m < |rest| && rest[m] == all[k] && rest[m..] == all[k..]
  {
  }

  lemma NotFirst(db: Listing, rows: seq<Row>, key: string, endKey: string)
    requires rows != [] && !db.In(rows[0], key, endKey)
    ensures Within(db, rows, key, endKey) == Within(db, rows[1..], key, endKey)
  {
  }

  lemma {:induction false} SameRest(db: Listing, rest: seq<Row>, startKey: string, key: string, endKey: string, first: Row)
    requires db.Valid() && first.id == key && key != "" && db.In(first, startKey, endKey)
    requires forall r :: r in rest ==> db.before(key, r.id)
    ensures Within(db, rest, startKey, endKey) == Within(db, rest, key, endKey)
  {
    if rest != [] {
      assert rest[0] in rest;
      SameRest(db, rest[1..], startKey, key, endKey, first);
    }
  }

  /** How a walk ended: to the last row, at a row the caller refused, or at a request that
      failed. */
  datatype Ending = Done | Refused | Failed

  /** What a walk over `all` in pages of `size` has done when it ends: it has asked `requests`
      times, only the last of which may have failed; each before it gave a full page, not
      refused, with more behind it; and the rows seen are all there are, the pages before the
      failure, or those up to the first refused. */
  ghost predicate Walked(all: seq<Row>, size: nat, refuses: Row -> bool, fails: nat -> bool, seen: seq<Row>, end: Ending, requests: nat) {
    && requests > 0 && (end == Failed <==> fails(requests - 1))
    && Walking(all, size, refuses, fails, seen[..Min((requests - 1) * size, |seen|)], requests - 1)
    && seen <= all
    && match end
       case Done => seen == all && |all| <= requests * size && NoneRefused(seen, refuses)
       case Failed => |seen| == (requests - 1) * size
       case Refused => (requests - 1) * size < |seen| <= requests * size && refuses(seen[|seen| - 1]) && NoneRefused(seen[..|seen| - 1], refuses)
  }

  /** The same between two requests. */
  ghost predicate Walking(all: seq<Row>, size: nat, refuses: Row -> bool, fails: nat -> bool, seen: seq<Row>, requests: nat) {
    && (forall k :: 0 <= k < requests ==> !fails(k))
    && |seen| == requests * size && (requests == 0 || |seen| < |all|)
    && seen <= all && NoneRefused(seen, refuses)
  }

  predicate NoneRefused(rows: seq<Row>, refuses: Row -> bool) { forall r :: r in rows ==> !refuses(r) }

  /** AllDocsStream: every row of the range goes to the caller once, in order - or the first
      rows of it, up to the one it refuses or the page the server fails to give.  A page is as
      long as the caller's limit, or 500 rows. */
  method AllDocsStream(db: Listing, options: Options, refuses: Row -> bool, fails: nat -> bool)
    returns (seen: seq<Row>, end: Ending, requests: nat)
    requires db.Valid()
    ensures Walked(Range(db, options.startKey, options.endKey), if options.limit > 0 then options.limit else 500, refuses, fails, seen, end, requests)
  {
    hide Range, Walked, Walking, NoneRefused, Listing.Valid;
    var opts := options;
    if opts.limit <= 0 {
      opts := opts.(limit := 500);
    }
    seen := [];
    requests := 0;
    ghost var all, size := Range(db, options.startKey, options.endKey), opts.limit;
    Starts(all, size, refuses, fails);
    while true
      invariant opts.limit == size > 0 && opts.endKey == options.endKey
      invariant Walking(all, size, refuses, fails, seen, requests)
      invariant all == seen + Range(db, opts.startKey, opts.endKey)
      decreases |all| - |seen|
    {
      ghost var rest, was := Range(db, opts.startKey, opts.endKey), seen;
      if fails(requests) {
        Fails(all, size, refuses, fails, seen, requests);
        return seen, Failed, requests + 1;
      }
      requests := requests + 1;
      var page := AllDocs(db, opts);
      var n, refused := HandOn(page.rows, refuses);
      seen := seen + page.rows[..n];
      PageSeen(rest, size, page.rows, was);
      PageGiven(all, size, refuses, fails, was, page.rows, n, requests);
      if refused {
        return seen, Refused, requests;
      }
      if page.nextKey == "" {
        return seen, Done, requests;
      }
      Next(db, opts);
      opts := opts.(startKey := page.nextKey);
    }
  }

  lemma Starts(all: seq<Row>, size: nat, refuses: Row -> bool, fails: nat -> bool)
    ensures Walking(all, size, refuses, fails, [], 0)
  {
  }

  lemma Fails(all: seq<Row>, size: nat, refuses: Row -> bool, fails: nat -> bool, seen: seq<Row>, requests: nat)
    requires Walking(all, size, refuses, fails, seen, requests) && fails(requests)
    ensures Walked(all, size, refuses, fails, seen, Failed, requests + 1)
  {
    assert seen[..|seen|] == seen;
  }

  lemma PageSeen(rest: seq<Row>, size: nat, rows: seq<Row>, seen: seq<Row>)
    requires rows == if 0 < size < |rest| then rest[..size] else rest
    ensures seen + rest == (seen + rows) + rest[|rows|..] && rows[..|rows|] == rows
  {
    Associate(seen, rows, rest[|rows|..]);
    assert rest == rows + rest[|rows|..];
  }

  /** One more page: the rows up to the first refused, or all of them. */
  lemma PageGiven(all: seq<Row>, size: nat, refuses: Row -> bool, fails: nat -> bool, was: seq<Row>, rows: seq<Row>, n: nat, requests: nat)
    requires requests > 0 && Walking(all, size, refuses, fails, was, requests - 1) && !fails(requests - 1)
    requires was + rows <= all && |rows| <= size && n <= |rows|
    ensures var seen := was + rows[..n];
            && (n > 0 && refuses(rows[n - 1]) && NoneRefused(rows[..n - 1], refuses) ==> Walked(all, size, refuses, fails, seen, Refused, requests))
            && (n == |rows| && NoneRefused(rows, refuses) && was + rows == all ==> Walked(all, size, refuses, fails, seen, Done, requests))
            && (n == |rows| == size && NoneRefused(rows, refuses) && was + rows != all ==> Walking(all, size, refuses, fails, seen, requests))
  {
    var seen := was + rows[..n];
    assert seen <= was + rows;
    assert seen[..|was|] == was;
    assert (requests - 1) * size + size == requests * size;
    if n > 0 {
      assert seen[..|seen| - 1] == was + rows[..n - 1];
    }
    assert rows[..|rows|] == rows;
  }

  /** The rows of one page, up to the first refused. */
  method HandOn(rows: seq<Row>, refuses: Row -> bool) returns (n: nat, refused: bool)
    ensures n <= |rows|
    ensures if refused then n > 0 && refuses(rows[n - 1]) && NoneRefused(rows[..n - 1], refuses) else n == |rows| && NoneRefused(rows, refuses)
  {
    for i := 0 to |rows|
      invariant forall k :: 0 <= k < i ==> !refuses(rows[k])
    {
      if refuses(rows[i]) {
        return i + 1, true;
      }
    }
    return |rows|, false;
  }

  /** The next page's range is what is left of this one. */
  lemma Next(db: Listing, opts: Options)
    requires db.Valid()
    requires 0 < opts.limit < |Range(db, opts.startKey, opts.endKey)|
    ensures var r := Range(db, opts.startKey, opts.endKey);
            Range(db, r[opts.limit].id, opts.endKey) == r[opts.limit..]
  {
    RestartAt(db, db.rows, opts.startKey, opts.endKey, opts.limit);
  }

  predicate InOrder(db: Listing, rows: seq<Row>) {
    forall i, j :: 0 <= i < j < |rows| ==> db.before(rows[i].id, rows[j].id)
  }

  /** A range is every row between its keys, once, in the order of the walk: so the walk's
      ids are strictly increasing, and none between the keys is left out. */
  lemma {:induction false} RangeIsAll(db: Listing, rows: seq<Row>, startKey: string, endKey: string)
    requires db.Valid() && InOrder(db, rows)
    ensures InOrder(db, Within(db, rows, startKey, endKey))
    ensures forall r :: r in Within(db, rows, startKey, endKey) <==> r in rows && db.In(r, startKey, endKey)
  {
    WithinFrom(db, rows, startKey, endKey);
    if rows != [] {
      var rest, more := rows[1..], Within(db, rows[1..], startKey, endKey);
      RangeIsAll(db, rest, startKey, endKey);
      assert forall r :: r in rows <==> r == rows[0] || r in rest;
      forall r | r in more
        ensures db.before(rows[0].id, r.id)
      {
        assert r in rest;
      }
    }
  }
}
