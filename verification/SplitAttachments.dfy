/** splitAttachments (internal/command/backup.go): a document as the server returns it, and
    the document and attachments a dump writes for it. */
module SplitAttachments {
  import opened Wrappers
  import opened DumpFormat

  datatype Content = Content(contentType: string, data: Bytes)

  /** A revision as _bulk_get and the attachment reads hand it over: the document without its
      stubs, and what the stubs name. */
  datatype Body = Body(doc: Bytes, stubs: map<string, Content>)

  datatype Attachment = Attachment(name: string, contentType: string, data: Bytes)

  /** One revision as it is dumped, its attachments in name order. */
  datatype Revision = Revision(doc: Bytes, atts: seq<Attachment>)

  // ---------------------------------------------------------------- the order of names

  /** Go's order on strings. */
  predicate Less(a: string, b: string) {
    b != "" && (a == "" || a[0] < b[0] || (a[0] == b[0] && Less(a[1..], b[1..])))
  }

  lemma {:induction false} LessOrMore(a: string, b: string)
    ensures a == b || Less(a, b) || Less(b, a)
    ensures !(Less(a, b) && Less(b, a)) && !Less(a, a)
  {
    if a != "" && b != "" && a[0] == b[0] {
      LessOrMore(a[1..], b[1..]);
      assert a == [a[0]] + a[1..] && b == [b[0]] + b[1..];
    } else if a != "" {
      LessOrMore(a[1..], a[1..]);
    }
    NotBelowItself(a);
  }

  lemma {:induction false} NotBelowItself(a: string)
    ensures !Less(a, a)
  {
    if a != "" {
      NotBelowItself(a[1..]);
    }
  }

  lemma {:induction false} LessThen(a: string, b: string, c: string)
    requires Less(a, b) && Less(b, c)
    ensures Less(a, c)
  {
    if a != "" && a[0] == b[0] && b[0] == c[0] {
      LessThen(a[1..], b[1..], c[1..]);
    }
  }

  /** That is: a is a proper prefix of b, or smaller at the first place where they differ. */
  lemma {:induction false} LessIs(a: string, b: string)
    ensures Less(a, b) <==> exists n :: DiffersAt(a, b, n)
  {
    if a == "" || b == "" {
      assert b != "" ==> DiffersAt(a, b, 0);
    } else if a[0] != b[0] {
      assert a[0] < b[0] ==> DiffersAt(a, b, 0);
    } else {
      LessIs(a[1..], b[1..]);
      if n :| DiffersAt(a[1..], b[1..], n) {
        assert a[..n + 1] == [a[0]] + a[1..][..n] && b[..n + 1] == [b[0]] + b[1..][..n];
        assert DiffersAt(a, b, n + 1);
      }
      if n :| DiffersAt(a, b, n) {
        assert n > 0 && a[1..][..n - 1] == a[..n][1..] && b[1..][..n - 1] == b[..n][1..];
        assert DiffersAt(a[1..], b[1..], n - 1);
      }
    }
  }

  predicate DiffersAt(a: string, b: string, n: int) {
    0 <= n <= |a| && n < |b| && a[..n] == b[..n] && (n == |a| || a[n] < b[n])
  }

  predicate Ascending(names: seq<string>) {
    forall i, k :: 0 <= i < k < |names| ==> Less(names[i], names[k])
  }

  predicate Least(m: string, s: set<string>) {
    m in s && forall n :: n in s ==> n == m || Less(m, n)
  }

  lemma {:induction false} LeastExists(s: set<string>)
    requires s != {}
    ensures exists m :: Least(m, s)
  {
    var x :| x in s;
    if s == {x} {
      assert Least(x, s);
    } else {
      var rest := s - {x};
      LeastExists(rest);
      var m :| Least(m, rest);
      LessOrMore(m, x);
      if Less(x, m) {
        forall n | n in s
          ensures n == x || Less(x, n)
        {
          if n != x && n != m {
            LessThen(x, m, n);
          }
        }
        assert Least(x, s);
      } else {
        assert Least(m, s);
      }
    }
  }

  lemma OneLeast(s: set<string>)
    ensures forall m, n :: Least(m, s) && Least(n, s) ==> m == n
  {
    forall m, n | Least(m, s) && Least(n, s)
      ensures m == n
    {
      LessOrMore(m, n);
    }
  }

  /** sort.Strings on a set of names. */
  function SortedNames(s: set<string>): (names: seq<string>)
    ensures forall n :: n in names <==> n in s
    ensures |names| == |s|
  {
    if s == {} then []
    else
      LeastExists(s);
      OneLeast(s);
      var m :| Least(m, s);
      [m] + SortedNames(s - {m})
  }

  lemma {:induction false} NamesAscend(s: set<string>)
    ensures Ascending(SortedNames(s))
  {
    hide Less;
    if s != {} {
      LeastExists(s);
      OneLeast(s);
      var m :| Least(m, s);
      var rest := SortedNames(s - {m});
      assert SortedNames(s) == [m] + rest;
      NamesAscend(s - {m});
      forall n | n in rest
        ensures Less(m, n)
      {
        assert n in s - {m};
      }
      hide SortedNames, Least;
      FirstThenRest(m, rest);
    }
  }

  lemma FirstThenRest(m: string, rest: seq<string>)
    requires Ascending(rest) && forall n :: n in rest ==> Less(m, n)
    ensures Ascending([m] + rest)
  {
    hide Less;
    var names := [m] + rest;
    forall i, k | 0 <= i < k < |names|
      ensures Less(names[i], names[k])
    {
      assert names[k] == rest[k - 1] && rest[k - 1] in rest;
      assert i > 0 ==> names[i] == rest[i - 1];
    }
  }

  /** Only one list of the names is in order, so a dump of the same document is the same
      whatever order a map is walked in. */
  lemma {:induction false} OneOrder(a: seq<string>, b: seq<string>)
    requires Ascending(a) && Ascending(b) && forall n :: n in a <==> n in b
    ensures a == b
  {
    if a == [] {
      if b != [] {
        SameFirst(b, a);
      }
    } else {
      SameFirst(a, b);
      SameRest(a, b);
      OneOrder(a[1..], b[1..]);
      assert a == [a[0]] + a[1..] && b == [b[0]] + b[1..];
    }
  }

  lemma SameFirst(a: seq<string>, b: seq<string>)
    requires a != [] && Ascending(a) && Ascending(b) && forall n :: n in a <==> n in b
    ensures b != [] && a[0] == b[0]
  {
    assert a[0] in b;
    assert b[0] in a;
    LessOrMore(a[0], b[0]);
  }

  lemma SameRest(a: seq<string>, b: seq<string>)
    requires a != [] && b != [] && a[0] == b[0] && Ascending(a) && Ascending(b) && forall n :: n in a <==> n in b
    ensures forall n :: n in a[1..] <==> n in b[1..]
    ensures Ascending(a[1..]) && Ascending(b[1..])
  {
    forall n
      ensures n in a[1..] <==> n in b[1..]
    {
      LessOrMore(a[0], a[0]);
      assert n in a <==> n == a[0] || n in a[1..];
      assert n in b <==> n == b[0] || n in b[1..];
    }
  }

  // ---------------------------------------------------------------- a document and its stubs

  /** The revision a body is dumped as. */
  function Split(b: Body): (r: Revision)
    ensures r.doc == b.doc && |r.atts| == |b.stubs|
    ensures forall a :: a in r.atts ==> a.name in b.stubs && b.stubs[a.name] == Content(a.contentType, a.data)
    ensures forall n :: n in b.stubs ==> exists i :: 0 <= i < |r.atts| && r.atts[i].name == n
  {
    var names := SortedNames(b.stubs.Keys);
    assert forall n :: n in b.stubs ==> n in names;
    var atts := seq(|names|, i requires 0 <= i < |names| =>
      assert names[i] in names;
      Attachment(names[i], b.stubs[names[i]].contentType, b.stubs[names[i]].data));
    assert forall i :: 0 <= i < |names| ==> atts[i].name == names[i];
    Revision(b.doc, atts)
  }

  /** A document never names two attachments alike. */
  lemma NamesDiffer(b: Body)
    ensures var r := Split(b); forall i, k :: 0 <= i < k < |r.atts| ==> Less(r.atts[i].name, r.atts[k].name)
    ensures var r := Split(b); forall i, k :: 0 <= i < k < |r.atts| ==> r.atts[i].name != r.atts[k].name
  {
    var names := SortedNames(b.stubs.Keys);
    NamesAscend(b.stubs.Keys);
    forall i, k | 0 <= i < k < |names|
      ensures Less(names[i], names[k]) && names[i] != names[k]
    {
      LessOrMore(names[i], names[i]);
    }
  }

  /** Puts a name where it belongs. */
  method Insert(names: seq<string>, n: string) returns (out: seq<string>)
    requires Ascending(names) && n !in names
    ensures Ascending(out) && forall m :: m in out <==> m in names || m == n
  {
    var i := 0;
    while i < |names| && Less(names[i], n)
      invariant 0 <= i <= |names|
      invariant forall k :: 0 <= k < i ==> Less(names[k], n)
    {
      i := i + 1;
    }
    out := names[..i] + [n] + names[i..];
    if i < |names| {
      LessOrMore(names[i], n);
      forall k | i <= k < |names|
        ensures Less(n, names[k])
      {
        if k > i {
          LessThen(n, names[i], names[k]);
        }
      }
    }
  }

  /** The names a map yields in any order, sorted. */
  method SortedKeys(keys: set<string>) returns (names: seq<string>)
    ensures names == SortedNames(keys)
  {
    var left := keys;
    names := [];
    while left != {}
      invariant left <= keys && Ascending(names)
      invariant forall n :: n in names <==> n in keys - left
      decreases |left|
    {
      var n :| n in left;
      names := Insert(names, n);
      left := left - {n};
    }
    NamesAscend(keys);
    OneOrder(names, SortedNames(keys));
  }

  /** The revision a body is dumped as, its attachments by name. */
  method SplitBody(b: Body) returns (r: Revision)
    ensures r == Split(b)
  {
    var names := SortedKeys(b.stubs.Keys);
    assert forall i :: 0 <= i < |names| ==> names[i] in names;
    var atts := seq(|names|, i requires 0 <= i < |names| =>
      Attachment(names[i], b.stubs[names[i]].contentType, b.stubs[names[i]].data));
    r := Revision(b.doc, atts);
    assert atts == Split(b).atts;
  }

  // ---------------------------------------------------------------- stripping the stubs

  /** What encoding/json is to splitAttachments: an object's fields, raw, by name - none for
      what is no object - and a field's text, empty if it has none. */
  datatype Objects = Objects(
    fields: Bytes -> Option<map<string, Bytes>>,
    write: map<string, Bytes> -> Bytes,
    text: Bytes -> string)
  {
    ghost predicate Valid() {
      forall m: map<string, Bytes> :: fields(write(m)) == Some(m)
    }

    function TextOf(m: map<string, Bytes>, name: string): string {
      if name in m then text(m[name]) else ""
    }

    /** A field's text as a reader of the whole document sees it. */
    function FieldText(doc: Bytes, name: string): string {
      if fields(doc).Some? then TextOf(fields(doc).value, name) else ""
    }
  }

  /** A document without its stubs, what the stubs name, and its own id and revision. */
  datatype Stripped = Stripped(doc: Bytes, names: seq<string>, id: string, rev: string)

  function Strip(o: Objects, raw: Bytes): Option<Stripped> {
    match o.fields(raw)
    case None => None
    case Some(m) =>
      var stubs := if "_attachments" in m then o.fields(m["_attachments"]) else Some(map[]);
      if stubs.None? then None
      else Some(Stripped(o.write(m - {"_attachments"}), SortedNames(stubs.value.Keys), o.TextOf(m, "_id"), o.TextOf(m, "_rev")))
  }

  /** splitAttachments itself. */
  method SplitAttachments(o: Objects, raw: Bytes) returns (r: Option<Stripped>)
    ensures r == Strip(o, raw)
  {
    var parsed := o.fields(raw);
    if parsed.None? {
      return None;
    }
    var m := parsed.value;
    var id, rev := o.TextOf(m, "_id"), o.TextOf(m, "_rev");
    var names: seq<string> := [];
    if "_attachments" in m {
      var stubs := o.fields(m["_attachments"]);
      if stubs.None? {
        return None;
      }
      names := SortedKeys(stubs.value.Keys);
      m := m - {"_attachments"};
    } else {
      names := SortedKeys({});
      assert m - {"_attachments"} == m;
    }
    return Some(Stripped(o.write(m), names, id, rev));
  }

  /** Stripping takes the stubs off and nothing else: the id and the revision it reports are
      those any reader of the stripped document finds, and the names are the stubs', once
      each, in ascending order.  Only what is no object, or has stubs that are none, is
      refused. */
  lemma StripTakesTheStubs(o: Objects, raw: Bytes)
    requires o.Valid()
    ensures Strip(o, raw).Some? <==>
            o.fields(raw).Some? && ("_attachments" in o.fields(raw).value ==> o.fields(o.fields(raw).value["_attachments"]).Some?)
    ensures Strip(o, raw).Some? ==>
            var s := Strip(o, raw).value;
            && o.fields(raw).Some? && o.fields(s.doc) == Some(o.fields(raw).value - {"_attachments"})
            && s.id == o.FieldText(s.doc, "_id") == o.FieldText(raw, "_id")
            && s.rev == o.FieldText(s.doc, "_rev") == o.FieldText(raw, "_rev")
            && Ascending(s.names)
    ensures Strip(o, raw).Some? ==>
            var m, names := o.fields(raw).value, Strip(o, raw).value.names;
            && ("_attachments" !in m ==> names == [])
            && ("_attachments" in m ==>
                  o.fields(m["_attachments"]).Some? && forall n :: n in names <==> n in o.fields(m["_attachments"]).value)
  {
    if Strip(o, raw).Some? {
      StripAscends(o, raw);
      assert SortedNames({}) == [];
    }
  }

  lemma StripAscends(o: Objects, raw: Bytes)
    requires Strip(o, raw).Some?
    ensures Ascending(Strip(o, raw).value.names)
  {
    var m := o.fields(raw).value;
    NamesAscend(if "_attachments" in m then o.fields(m["_attachments"]).value.Keys else {});
  }

  lemma SplitNames(b: Body)
    ensures var r, names := Split(b), SortedNames(b.stubs.Keys);
            |r.atts| == |names| && forall i :: 0 <= i < |names| ==> r.atts[i].name == names[i]
  {
  }

  /** And the revision dumped is the stripped document with an attachment for each name, in
      that order. */
  lemma SplitIsStripped(o: Objects, raw: Bytes, b: Body)
    requires Strip(o, raw).Some?
    requires var s := Strip(o, raw).value; b.doc == s.doc && forall n :: n in s.names <==> n in b.stubs
    ensures var s, r := Strip(o, raw).value, Split(b);
            r.doc == s.doc && |r.atts| == |s.names| && forall i :: 0 <= i < |s.names| ==> r.atts[i].name == s.names[i]
  {
    StripAscends(o, raw);
    SplitNames(b);
    NamesAscend(b.stubs.Keys);
    hide Strip, Split, Ascending;
    OneOrder(Strip(o, raw).value.names, SortedNames(b.stubs.Keys));
  }
}
