/** Text as the shell handles it: a line is a sequence of runes; a word is a sequence of
    bytes, each written as the char of the same number.  Section 3 of RFC 3629 says how one
    becomes the other. */
module ShellText {

  /** The UTF-8 bytes of one rune. */
  function Utf8(r: char): (b: string)
    ensures 0 < |b| <= 4
    ensures r as int < 0x80 ==> b == [r]
    ensures r as int >= 0x80 ==> forall k :: 0 <= k < |b| ==> 0x80 <= b[k] as int < 0x100
  {
    var n := r as int;
    if n < 0x80 then [r]
    else if n < 0x800 then [(0xC0 + n / 0x40) as char, (0x80 + n % 0x40) as char]
    else if n < 0x1_0000 then
      [(0xE0 + n / 0x1000) as char, (0x80 + n / 0x40 % 0x40) as char, (0x80 + n % 0x40) as char]
    else
      [(0xF0 + n / 0x4_0000) as char, (0x80 + n / 0x1000 % 0x40) as char, (0x80 + n / 0x40 % 0x40) as char,
       (0x80 + n % 0x40) as char]
  }

  function Bytes(s: string): string {
    if s == "" then "" else Bytes(s[..|s| - 1]) + Utf8(s[|s| - 1])
  }

  lemma BytesSnoc(s: string, r: char)
    ensures Bytes(s + [r]) == Bytes(s) + Utf8(r)
  {
    assert (s + [r])[..|s|] == s;
  }

  lemma {:induction false} BytesAppend(a: string, b: string)
    ensures Bytes(a + b) == Bytes(a) + Bytes(b)
  {
    hide Utf8;
    if b == "" {
      assert a + b == a;
    } else {
      assert (a + b)[..|a + b| - 1] == a + b[..|b| - 1];
      BytesAppend(a, b[..|b| - 1]);
    }
  }

  /** The first rune of some UTF-8 bytes, as a number, and how many bytes it takes. */
  function FirstRune(b: string): (int, nat) {
    if b == "" || b[0] as int < 0x80 || |b| < 2 then (if b == "" then -1 else b[0] as int, 1)
    else
      var tail := b[1] as int - 0x80;
      if b[0] as int < 0xE0 || |b| < 3 then ((b[0] as int - 0xC0) * 0x40 + tail, 2)
      else if b[0] as int < 0xF0 || |b| < 4 then ((b[0] as int - 0xE0) * 0x1000 + tail * 0x40 + (b[2] as int - 0x80), 3)
      else ((b[0] as int - 0xF0) * 0x4_0000 + tail * 0x1000 + (b[2] as int - 0x80) * 0x40 + (b[3] as int - 0x80), 4)
  }

  lemma RuneReadsBack(r: char, rest: string)
    ensures FirstRune(Utf8(r) + rest) == (r as int, |Utf8(r)|)
  {
    var n, b := r as int, Utf8(r) + rest;
    SixBits(n);
    assert forall k :: 0 <= k < |Utf8(r)| ==> b[k] == Utf8(r)[k];
    if n >= 0x1_0000 {
      FourBytes(r);
    } else if n >= 0x800 {
      ThreeBytes(r);
    } else if n >= 0x80 {
      TwoBytes(r);
    }
  }

  /** A number by its six-bit digits. */
  lemma SixBits(n: nat)
    ensures n == n / 0x40 * 0x40 + n % 0x40
    ensures n / 0x40 == n / 0x1000 * 0x40 + n / 0x40 % 0x40
    ensures n / 0x1000 == n / 0x4_0000 * 0x40 + n / 0x1000 % 0x40
  {
  }

  lemma FourBytes(r: char)
    requires r as int >= 0x1_0000
    ensures var n, u := r as int, Utf8(r);
            && |u| == 4 && u[0] as int == 0xF0 + n / 0x4_0000 && u[1] as int == 0x80 + n / 0x1000 % 0x40
            && u[2] as int == 0x80 + n / 0x40 % 0x40 && u[3] as int == 0x80 + n % 0x40
  {
  }

  lemma ThreeBytes(r: char)
    requires 0x800 <= r as int < 0x1_0000
    ensures var n, u := r as int, Utf8(r);
            && |u| == 3 && u[0] as int == 0xE0 + n / 0x1000 < 0xF0
            && u[1] as int == 0x80 + n / 0x40 % 0x40 && u[2] as int == 0x80 + n % 0x40
  {
  }

  lemma TwoBytes(r: char)
    requires 0x80 <= r as int < 0x800
    ensures var n, u := r as int, Utf8(r);
            |u| == 2 && u[0] as int == 0xC0 + n / 0x40 < 0xE0 && u[1] as int == 0x80 + n % 0x40
  {
  }

  /** Different text has different bytes. */
  lemma {:induction false} BytesApart(a: string, b: string)
    requires Bytes(a) == Bytes(b)
    ensures a == b
  {
    if a == "" || b == "" {
      NoBytes(a);
      NoBytes(b);
    } else {
      BytesFirst(a);
      BytesFirst(b);
      RuneReadsBack(a[0], Bytes(a[1..]));
      RuneReadsBack(b[0], Bytes(b[1..]));
      hide Utf8, FirstRune, Bytes;
      assert a[0] == b[0];
      assert Bytes(a)[|Utf8(a[0])|..] == Bytes(a[1..]) && Bytes(b)[|Utf8(b[0])|..] == Bytes(b[1..]);
      BytesApart(a[1..], b[1..]);
    }
  }

  lemma NoBytes(s: string)
    ensures Bytes(s) == "" <==> s == ""
  {
  }

  lemma BytesFirst(s: string)
    requires s != ""
    ensures Bytes(s) == Utf8(s[0]) + Bytes(s[1..])
  {
    hide Utf8, Bytes;
    BytesAppend([s[0]], s[1..]);
    BytesOne(s[0]);
    assert s == [s[0]] + s[1..];
  }

  lemma BytesOne(r: char)
    ensures Bytes([r]) == Utf8(r)
  {
    hide Utf8;
    assert [r][..0] == "" && "" + Utf8(r) == Utf8(r);
  }

  /** What unicode.IsSpace accepts. */
  predicate IsSpace(r: char) {
    var n := r as int;
    || 0x09 <= n <= 0x0D || n == 0x20 || n == 0x85 || n == 0xA0 || n == 0x1680
    || 0x2000 <= n <= 0x200A || n == 0x2028 || n == 0x2029 || n == 0x202F || n == 0x205F || n == 0x3000
  }

  /** The characters Unicode gives the property White_Space, by their numbers. */
  lemma SpacesAre(r: char)
    ensures IsSpace(r) <==>
            r as int in {9, 10, 11, 12, 13, 32, 133, 160, 5760, 8192, 8193, 8194, 8195, 8196, 8197, 8198, 8199, 8200, 8201, 8202,
                         8232, 8233, 8239, 8287, 12288}
  {
  }

  function TrimLeft(s: string): (t: string)
    ensures |t| <= |s| && t == s[|s| - |t|..]
    ensures forall k :: 0 <= k < |s| - |t| ==> IsSpace(s[k])
    ensures t != "" ==> !IsSpace(t[0])
  {
    if s != "" && IsSpace(s[0]) then TrimLeft(s[1..]) else s
  }

  function TrimRight(s: string): (t: string)
    ensures t <= s
    ensures forall k :: |t| <= k < |s| ==> IsSpace(s[k])
    ensures t != "" ==> !IsSpace(t[|t| - 1])
  {
    if s != "" && IsSpace(s[|s| - 1]) then TrimRight(s[..|s| - 1]) else s
  }

  function TrimSpace(s: string): (t: string)
    ensures t != "" ==> !IsSpace(t[0]) && !IsSpace(t[|t| - 1])
  {
    TrimRight(TrimLeft(s))
  }

  /** A text without spaces at its ends stays as it is. */
  lemma TrimmedAlready(s: string)
    requires s != "" ==> !IsSpace(s[0]) && !IsSpace(s[|s| - 1])
    ensures TrimSpace(s) == s
  {
    hide IsSpace;
  }

  /** Trimming takes spaces off both ends and nothing else. */
  lemma TrimmedBy(s: string) returns (lead: string, tail: string)
    ensures s == lead + TrimSpace(s) + tail && Blank(lead) && Blank(tail)
  {
    hide TrimLeft, TrimRight, IsSpace;
    var t := TrimLeft(s);
    assert t == TrimRight(t) + t[|TrimRight(t)|..];
    assert s == s[..|s| - |t|] + t;
    lead, tail := s[..|s| - |t|], t[|TrimRight(t)|..];
  }

  predicate Blank(raw: string) {
    forall k :: 0 <= k < |raw| ==> IsSpace(raw[k])
  }

  lemma {:induction false} TrimBlank(raw: string)
    requires Blank(raw)
    ensures TrimSpace(raw) == ""
  {
    if raw != "" {
      TrimBlank(raw[1..]);
    }
  }
}
