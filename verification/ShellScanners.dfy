/** The shell's other two scanners - NeedsMore (internal/shell/parse.go) and splitStages
    (internal/shell/shell.go) - and what they have in common with the parser. */
module ShellScanners {
  import opened ShellText
  import opened ShellParse

  // ---------------------------------------------------------------- does the line go on?

  datatype More = More(quote: Quote, escaped: bool, depth: nat, atTokenStart: bool, comment: bool) {
    predicate Plain() { !escaped && quote == Unquoted }
  }

  function QuoteOf(r: char): Quote
    requires r == '\'' || r == '"'
  {
    if r == '\'' then InSingle else InDouble
  }

  predicate Closes(q: Quote, r: char) { (q == InSingle && r == '\'') || (q == InDouble && r == '"') }

  function Look(m: More, r: char): More {
    if m.comment && r != '\n' then m
    else
      var n := m.(comment := false);
      if m.escaped then n.(escaped := false, atTokenStart := false)
      else if m.quote != Unquoted then
        if r == '\\' && m.quote == InDouble then n.(escaped := true, atTokenStart := false)
        else if Closes(m.quote, r) then n.(quote := Unquoted, atTokenStart := false)
        else n.(atTokenStart := false)
      else if r == '#' && m.atTokenStart then n.(comment := true)
      else if r == '\\' then n.(escaped := true, atTokenStart := false)
      else if r == '\'' || r == '"' then n.(quote := QuoteOf(r), atTokenStart := false)
      else if r == ' ' || r == '\t' || r == '\n' || r == '|' then n.(atTokenStart := true)
      else if r == '{' || r == '[' then n.(depth := m.depth + 1, atTokenStart := false)
      else if r == '}' || r == ']' then n.(depth := if m.depth > 0 then m.depth - 1 else 0, atTokenStart := false)
      else n.(atTokenStart := false)
  }

  function Looked(line: string): More {
    if line == "" then More(Unquoted, false, 0, true, false)
    else Look(Looked(line[..|line| - 1]), line[|line| - 1])
  }

  predicate WantsMore(m: More) { !m.Plain() || m.depth > 0 }

  method NeedsMore(line: string) returns (more: bool)
    ensures more == WantsMore(Looked(line))
  {
    var quote, escaped, depth, atTokenStart := Unquoted, false, 0, true;
    var i := 0;
    while i < |line|
      invariant 0 <= i <= |line| && 0 <= depth
      invariant var m := Looked(line[..i]);
                m == More(quote, escaped, depth, atTokenStart, false) ||
                (m == More(quote, escaped, depth, atTokenStart, true) && (i < |line| ==> line[i] == '\n'))
    {
      var r := line[i];
      assert line[..i + 1][..i] == line[..i];
      if escaped {
        escaped, atTokenStart := false, false;
      } else if quote != Unquoted {
        if r == '\\' && quote == InDouble {
          escaped := true;
        } else if Closes(quote, r) {
          quote := Unquoted;
        }
        atTokenStart := false;
      } else if r == '#' && atTokenStart {
        while i + 1 < |line| && line[i + 1] != '\n'
          invariant 0 <= i < |line|
          invariant Looked(line[..i + 1]) == More(quote, escaped, depth, atTokenStart, true)
        {
          i := i + 1;
          assert line[..i + 1][..i] == line[..i];
        }
      } else if r == '\\' {
        escaped, atTokenStart := true, false;
      } else if r == '\'' || r == '"' {
        quote, atTokenStart := QuoteOf(r), false;
      } else if r == ' ' || r == '\t' || r == '\n' || r == '|' {
        atTokenStart := true;
      } else if r == '{' || r == '[' {
        depth, atTokenStart := depth + 1, false;
      } else if r == '}' || r == ']' {
        if depth > 0 {
          depth := depth - 1;
        }
        atTokenStart := false;
      } else {
        atTokenStart := false;
      }
      i := i + 1;
    }
    assert line[..i] == line;
    if escaped {
      return true;
    }
    return quote != Unquoted || depth > 0;
  }

  // ---------------------------------------------------------------- where are the pipes?

  datatype Split = Split(done: seq<string>, piece: string, quote: Quote, escaped: bool)

  function Cut(p: Split, r: char): Split {
    if p.escaped then p.(piece := p.piece + [r], escaped := false)
    else if p.quote != Unquoted then
      var q := p.(piece := p.piece + [r]);
      if r == '\\' && p.quote == InDouble then q.(escaped := true)
      else if Closes(p.quote, r) then q.(quote := Unquoted)
      else q
    else if r == '\\' then p.(piece := p.piece + [r], escaped := true)
    else if r == '\'' || r == '"' then p.(piece := p.piece + [r], quote := QuoteOf(r))
    else if r == '|' then p.(done := p.done + [p.piece], piece := "")
    else p.(piece := p.piece + [r])
  }

  function CutAll(line: string): Split {
    if line == "" then Split([], "", Unquoted, false)
    else Cut(CutAll(line[..|line| - 1]), line[|line| - 1])
  }

  function Pieces(line: string): (ps: seq<string>)
    ensures ps != []
  {
    CutAll(line).done + [CutAll(line).piece]
  }

  function EachBytes(ps: seq<string>): (bs: seq<string>)
    ensures |bs| == |ps|
    ensures forall k :: 0 <= k < |ps| ==> bs[k] == Bytes(ps[k])
  {
    seq(|ps|, k requires 0 <= k < |ps| => Bytes(ps[k]))
  }

  /** The bytes of rune i lie where counting widths says they do. */
  lemma BytesAt(line: string, i: nat)
    requires i < |line|
    ensures |Bytes(line[..i])| + |Utf8(line[i])| == |Bytes(line[..i + 1])| <= |Bytes(line)|
    ensures Bytes(line)[|Bytes(line[..i])|..|Bytes(line[..i + 1])|] == Utf8(line[i])
  {
    BytesSnoc(line[..i], line[i]);
    assert line[..i + 1] == line[..i] + [line[i]];
    BytesAppend(line[..i + 1], line[i + 1..]);
    assert line == line[..i + 1] + line[i + 1..];
  }

  lemma CutSnoc(line: string, i: nat)
    requires i < |line|
    ensures CutAll(line[..i + 1]) == Cut(CutAll(line[..i]), line[i])
  {
    assert line[..i + 1][..i] == line[..i];
  }

  /** splitStages cuts the line's bytes at offsets it counts rune by rune; what it returns
      are the pieces' bytes. */
  method SplitStages(line: string) returns (stages: seq<string>)
    ensures stages == EachBytes(Pieces(line))
  {
    hide Utf8, Bytes;
    var text := Bytes(line);
    stages := [];
    var quote, escaped, start, at := Unquoted, false, 0, 0;
    ghost var p := CutAll("");
    EmptyBytes();
    for i := 0 to |line|
      invariant p == CutAll(line[..i]) && quote == p.quote && escaped == p.escaped
      invariant at == |Bytes(line[..i])| && 0 <= start <= at <= |text|
      invariant text[start..at] == Bytes(p.piece)
      invariant stages == EachBytes(p.done)
    {
      var r := line[i];
      var w := |Utf8(r)|;
      BytesAt(line, i);
      CutSnoc(line, i);
      BytesSnoc(p.piece, r);
      EmptyBytes();
      assert text[start..at + w] == text[start..at] + text[at..at + w];
      if escaped {
        escaped := false;
      } else if quote != Unquoted {
        if r == '\\' && quote == InDouble {
          escaped := true;
        } else if Closes(quote, r) {
          quote := Unquoted;
        }
      } else if r == '\\' {
        escaped := true;
      } else if r == '\'' || r == '"' {
        quote := QuoteOf(r);
      } else if r == '|' {
        stages := stages + [text[start..at]];
        start := at + w;
      }
      at := at + w;
      p := Cut(p, r);
    }
    assert line[..|line|] == line && at == |text|;
    assert text[start..] == text[start..at];
    return stages + [text[start..]];
  }

  lemma EmptyBytes()
    ensures Bytes("") == ""
  {
  }
}
