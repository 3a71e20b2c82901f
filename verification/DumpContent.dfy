/** The records of a dump that carry data. */
module DumpContent {
  import opened DumpFormat

  predicate IsContent(r: Record) {
    r.line.Doc? || r.line.Att?
  }

  /** The documents and attachments among some records, in order. */
  function Kept(rs: seq<Record>): seq<Record> {
    if rs == [] then []
    else Kept(rs[..|rs| - 1]) + if IsContent(rs[|rs| - 1]) then [rs[|rs| - 1]] else []
  }

  lemma {:induction false} KeptAppend(a: seq<Record>, b: seq<Record>)
    ensures Kept(a + b) == Kept(a) + Kept(b)
  {
    if b == [] {
      assert a + b == a;
    } else {
      assert (a + b)[..|a + b| - 1] == a + b[..|b| - 1];
      KeptAppend(a, b[..|b| - 1]);
    }
  }

  lemma {:induction false} KeptAll(rs: seq<Record>)
    requires forall r :: r in rs ==> IsContent(r)
    ensures Kept(rs) == rs
  {
    hide IsContent;
    if rs != [] {
      var front, last := rs[..|rs| - 1], rs[|rs| - 1];
      assert last in rs;
      KeptAll(front);
      assert front + [last] == rs;
    }
  }

  lemma {:induction false} KeptOther(rs: seq<Record>)
    requires forall r :: r in rs ==> !IsContent(r)
    ensures Kept(rs) == []
  {
    if rs != [] {
      KeptOther(rs[..|rs| - 1]);
    }
  }
}
