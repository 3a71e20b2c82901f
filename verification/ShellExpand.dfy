/** Variable expansion (internal/shell/expand.go): a word is read as tokens that lose
    nothing of it, and each token's value takes its place. */
module ShellExpand {
  import opened Wrappers
  import opened ShellParse

  /** Session variables, positional arguments and the environment. */
  datatype Env = Env(vars: map<string, string>, args: seq<string>, environ: map<string, string>)

  datatype Problem = NotAName(name: string) | Unset(name: string) | ReservedEnv

  type Expanded<T> = Result<T, Problem>

  // ---------------------------------------------------------------- references

  /** What follows a "$": no reference, a reference up to `next`, or braces around
      something that is no name. */
  datatype Reference = NoReference | Found(name: string, next: nat) | Wrong(name: string)

  predicate IsDigit(c: char) { '0' <= c <= '9' }

  predicate HasPrefix(s: string, p: string) { p <= s }

  predicate IsName(name: string) {
    || name == "#"
    || (|name| == 1 && IsDigit(name[0]))
    || (if HasPrefix(name, "env.") then IsVarName(name[4..]) else IsVarName(name))
  }

  /** Where the run of name bytes from i ends. */
  function RunEnd(word: string, i: nat): (j: nat)
    requires i <= |word|
    ensures i <= j <= |word|
    ensures forall k :: i <= k < j ==> IsNameByte(word[k])
    ensures j < |word| ==> !IsNameByte(word[j])
    decreases |word| - i
  {
    if i < |word| && IsNameByte(word[i]) then RunEnd(word, i + 1) else i
  }

  /** Where the first c from i on is. */
  function IndexFrom(word: string, i: nat, c: char): (r: Option<nat>)
    requires i <= |word|
    ensures r.Some? ==> i <= r.value < |word| && word[r.value] == c
    ensures forall k :: i <= k < (if r.Some? then r.value else |word|) ==> word[k] != c
    decreases |word| - i
  {
    if i == |word| then None else if word[i] == c then Some(i) else IndexFrom(word, i + 1, c)
  }

  function Braced(word: string, i: nat): Reference
    requires i < |word| && word[i] == '{'
  {
    var end := IndexFrom(word, i, '}');
    if end.None? || end.value < i + 2 then NoReference
    else if IsName(word[i + 1..end.value]) then Found(word[i + 1..end.value], end.value + 1)
    else Wrong(word[i + 1..end.value])
  }

  function Bare(word: string, i: nat): Reference
    requires i < |word|
  {
    var j := RunEnd(word, i);
    if j == i then NoReference
    else if word[i..j] == "env" && j < |word| && word[j] == '.' && RunEnd(word, j + 1) > j + 1 then
      Found(word[i..RunEnd(word, j + 1)], RunEnd(word, j + 1))
    else Found(word[i..j], j)
  }

  function ReferenceAt(word: string, i: nat): (r: Reference)
    ensures r.Found? ==> i < r.next <= |word|
  {
    if i >= |word| then NoReference
    else if word[i] == '{' then Braced(word, i)
    else if word[i] == '#' then Found("#", i + 1)
    else if IsDigit(word[i]) then Found([word[i]], i + 1)
    else Bare(word, i)
  }

  /** referenceAt, scanning byte by byte. */
  method ReadReference(word: string, i: nat) returns (r: Reference)
    ensures r == ReferenceAt(word, i)
  {
    if i >= |word| {
      return NoReference;
    }
    if word[i] == '{' {
      var end := i;
      while end < |word| && word[end] != '}'
        invariant i <= end <= |word|
        invariant IndexFrom(word, i, '}') == IndexFrom(word, end, '}')
      {
        end := end + 1;
      }
      if end == |word| || end < i + 2 {
        return NoReference;
      }
      var name := word[i + 1..end];
      return if IsName(name) then Found(name, end + 1) else Wrong(name);
    }
    if word[i] == '#' {
      return Found("#", i + 1);
    }
    if IsDigit(word[i]) {
      return Found([word[i]], i + 1);
    }
    r := ReadBare(word, i);
  }

  /** A run of name bytes, or env and one behind a dot. */
  method ReadBare(word: string, i: nat) returns (r: Reference)
    requires i < |word|
    ensures r == Bare(word, i)
  {
    var j := i;
    while j < |word| && IsNameByte(word[j])
      invariant i <= j <= |word| && RunEnd(word, i) == RunEnd(word, j)
    {
      j := j + 1;
    }
    if j == i {
      return NoReference;
    }
    if word[i..j] == "env" && j < |word| && word[j] == '.' {
      var k := j + 1;
      while k < |word| && IsNameByte(word[k])
        invariant j + 1 <= k <= |word| && RunEnd(word, j + 1) == RunEnd(word, k)
      {
        k := k + 1;
      }
      if k > j + 1 {
        return Found(word[i..k], k);
      }
    }
    return Found(word[i..j], j);
  }

  // ---------------------------------------------------------------- values

  function Decimal(n: nat): string {
    if n < 10 then [('0' as int + n) as char] else Decimal(n / 10) + [('0' as int + n % 10) as char]
  }

  /** The number a numeral stands for. */
  function Numeral(s: string): int {
    if s == "" then 0 else 10 * Numeral(s[..|s| - 1]) + (s[|s| - 1] as int - '0' as int)
  }

  /** "$#" is the numeral of how many arguments there are. */
  lemma {:induction false} DecimalIsNumeral(n: nat)
    ensures Numeral(Decimal(n)) == n && Decimal(n) != "" && (n > 0 ==> Decimal(n)[0] != '0')
    ensures forall k :: 0 <= k < |Decimal(n)| ==> IsDigit(Decimal(n)[k])
  {
    var s := Decimal(n);
    if n < 10 {
      assert s[..0] == "";
    } else {
      DecimalIsNumeral(n / 10);
      assert s[..|s| - 1] == Decimal(n / 10);
    }
  }

  function ValueOf(name: string, env: Env): Expanded<string> {
    if name == "#" then Ok(Decimal(|env.args|))
    else if |name| == 1 && '1' <= name[0] <= '9' then
      var n := name[0] as int - '0' as int;
      if n > |env.args| then Err(Unset(name)) else Ok(env.args[n - 1])
    else if HasPrefix(name, "env.") then
      if name[4..] in env.environ then Ok(env.environ[name[4..]]) else Err(Unset(name))
    else if name == "env" then Err(ReservedEnv)
    else if name in env.vars then Ok(env.vars[name])
    else Err(Unset(name))
  }

  /** The numerals of 1 to 9 name the arguments in their order. */
  lemma NthArgument(n: nat, env: Env)
    requires 1 <= n <= 9
    ensures ValueOf(Decimal(n), env) == if n <= |env.args| then Ok(env.args[n - 1]) else Err(Unset(Decimal(n)))
  {
    DecimalIsNumeral(n);
    assert Decimal(n) != "#" && |Decimal(n)| == 1;
  }

  // ---------------------------------------------------------------- which references there are

  /** A name is made of the ASCII letters, the underscore and, behind its first byte, the
      digits, by their codes. */
  lemma NameBytes(c: char)
    ensures IsLetter(c) <==> 65 <= c as int <= 90 || 97 <= c as int <= 122 || c as int == 95
    ensures IsDigit(c) <==> 48 <= c as int <= 57
    ensures IsNameByte(c) <==> IsLetter(c) || IsDigit(c)
  {
  }

  /** Where name bytes end, the run of them ends. */
  lemma {:induction false} RunOf(word: string, i: nat, name: string)
    requires i + |name| <= |word| && word[i..i + |name|] == name
    requires forall k :: 0 <= k < |name| ==> IsNameByte(name[k])
    requires i + |name| < |word| ==> !IsNameByte(word[i + |name|])
    ensures RunEnd(word, i) == i + |name|
    decreases |name|
  {
    if name != "" {
      assert word[i] == word[i..i + |name|][0];
      assert word[i + 1..i + 1 + |name[1..]|] == name[1..];
      RunOf(word, i + 1, name[1..]);
    }
  }

  /** "$" and a name that ends there is the variable of that name, save that "env" with a dot
      and a name behind it is a name of the environment's. */
  lemma BareName(word: string, i: nat, name: string)
    requires i + |name| <= |word| && word[i..i + |name|] == name && IsVarName(name)
    requires i + |name| < |word| ==> !IsNameByte(word[i + |name|])
    ensures name != "env" ==> ReferenceAt(word, i) == Found(name, i + |name|)
    ensures name == "env" && (i + 4 >= |word| || word[i + 3] != '.' || !IsNameByte(word[i + 4])) ==>
              ReferenceAt(word, i) == Found("env", i + 3)
  {
    RunOf(word, i, name);
    assert word[i] == name[0];
    hide IsName, IndexFrom;
  }

  lemma BareEnv(word: string, i: nat, name: string)
    requires name != "" && forall k :: 0 <= k < |name| ==> IsNameByte(name[k])
    requires i + 4 + |name| <= |word| && word[i..i + 4] == "env." && word[i + 4..i + 4 + |name|] == name
    requires i + 4 + |name| < |word| ==> !IsNameByte(word[i + 4 + |name|])
    ensures ReferenceAt(word, i) == Found("env." + name, i + 4 + |name|)
  {
    var env := "env";
    assert word[i..i + 3] == word[i..i + 4][..3] == env && word[i + 3] == word[i..i + 4][3] == '.';
    assert word[i] == env[0] && env[0] == 'e' && env[1] == 'n' && env[2] == 'v';
    RunOf(word, i, env);
    RunOf(word, i + 4, name);
    assert word[i..i + 4 + |name|] == word[i..i + 4] + word[i + 4..i + 4 + |name|];
    hide IsName, IndexFrom, RunEnd;
  }

  /** A digit is one argument, whatever follows; "#" is their number. */
  lemma OneDigit(word: string, i: nat)
    requires i < |word| && (IsDigit(word[i]) || word[i] == '#')
    ensures ReferenceAt(word, i) == Found([word[i]], i + 1)
  {
  }

  /** Braces hold a name, or their word cannot be expanded; empty or unclosed they are none. */
  lemma Braces(word: string, i: nat, name: string)
    requires i + |name| + 1 < |word| && word[i] == '{' && word[i + 1..i + 1 + |name|] == name && word[i + 1 + |name|] == '}' && '}' !in name
    ensures ReferenceAt(word, i) ==
            if name == "" then NoReference else if IsName(name) then Found(name, i + |name| + 2) else Wrong(name)
  {
    var end := IndexFrom(word, i, '}');
    assert forall k :: i + 1 <= k < i + 1 + |name| ==> word[k] == name[k - i - 1];
    assert end == Some(i + 1 + |name|);
    hide IsName, IndexFrom;
  }

  lemma Unclosed(word: string, i: nat)
    requires i < |word| && word[i] == '{' && '}' !in word[i..]
    ensures ReferenceAt(word, i) == NoReference
  {
    assert forall k :: i <= k < |word| ==> word[k] == word[i..][k - i];
  }

  /** Anything else behind a "$", or nothing, is no reference. */
  lemma NoneBehind(word: string, i: nat)
    requires i < |word| ==> !IsNameByte(word[i]) && word[i] != '{' && word[i] != '#'
    ensures ReferenceAt(word, i) == NoReference
  {
  }

  /** What may stand in braces: "#", one digit, a variable's name, or "env." and a name. */
  lemma NamesInBraces(name: string)
    ensures !HasPrefix(name, "env.") ==> (IsName(name) <==> name == "#" || (|name| == 1 && IsDigit(name[0])) || IsVarName(name))
    ensures IsName("env." + name) <==> IsVarName(name)
  {
    var env := "env." + name;
    assert HasPrefix(env, "env.") && env[4..] == name && |env| >= 4;
    assert env[0] == 'e' && "#"[0] == '#';
  }

  /** What each stands for: a variable's value, the environment's, an argument or their
      number; "env" itself is reserved, and what is not set is an error that names it. */
  lemma ValueOfEach(name: string, env: Env)
    ensures IsVarName(name) && name != "env" ==> ValueOf(name, env) == if name in env.vars then Ok(env.vars[name]) else Err(Unset(name))
    ensures ValueOf("env", env) == Err(ReservedEnv)
    ensures ValueOf("env." + name, env) == if name in env.environ then Ok(env.environ[name]) else Err(Unset("env." + name))
    ensures ValueOf("#", env) == Ok(Decimal(|env.args|))
  {
    if IsVarName(name) && |name| >= 4 {
      assert IsNameByte(name[3]);
      assert "env."[3] == '.';
    }
    var e := "env." + name;
    assert HasPrefix(e, "env.") && e[4..] == name && e[0] == 'e';
    assert "env"[0] == 'e' && |"env"| == 3;
  }

  // ---------------------------------------------------------------- a word as tokens

  /** One byte; "$$"; a marked "$"; a "$" that begins nothing; a reference; or a malformed
      one, which ends the reading. */
  datatype Token =
    | Byte(c: char) | Pair | Marked | Loose
    | Ref(source: string, name: string)
    | Malformed(source: string, name: string)
  {
    function Source(): string {
      match this
      case Byte(c) => [c]
      case Pair => "$$"
      case Marked => "$"
      case Loose => "$"
      case Ref(s, _) => s
      case Malformed(s, _) => s
    }

    function Value(env: Env): Expanded<string> {
      match this
      case Byte(c) => Ok([c])
      case Pair => Ok("$")
      case Marked => Ok("$")
      case Loose => Ok("$")
      case Ref(_, name) => ValueOf(name, env)
      case Malformed(_, name) => Err(NotAName(name))
    }
  }

  function Tokens(word: string, marks: seq<nat>, i: nat): (ts: seq<Token>)
    ensures i < |word| <==> ts != []
    decreases |word| - i
  {
    if i >= |word| then []
    else if word[i] != '$' then [Byte(word[i])] + Tokens(word, marks, i + 1)
    else if i + 1 < |word| && word[i + 1] == '$' then [Pair] + Tokens(word, marks, i + 2)
    else if i in marks then [Marked] + Tokens(word, marks, i + 1)
    else
      match ReferenceAt(word, i + 1)
      case Wrong(name) => [Malformed(word[i..], name)]
      case NoReference => [Loose] + Tokens(word, marks, i + 1)
      case Found(name, next) => [Ref(word[i..next], name)] + Tokens(word, marks, next)
  }

  function Sources(ts: seq<Token>): string {
    if ts == [] then "" else ts[0].Source() + Sources(ts[1..])
  }

  /** The values one after another; the first one missing is the word's error. */
  function Values(ts: seq<Token>, env: Env): Expanded<string> {
    if ts == [] then Ok("") else
      match ts[0].Value(env)
      case Err(p) => Err(p)
      case Ok(v) =>
        match Values(ts[1..], env)
        case Err(p) => Err(p)
        case Ok(rest) => Ok(v + rest)
  }

  function After(done: string, rest: Expanded<string>): Expanded<string> {
    match rest
    case Err(p) => Err(p)
    case Ok(v) => Ok(done + v)
  }

  /** One token's value, and the rest's. */
  function Chain(done: string, first: Expanded<string>, rest: Expanded<string>): Expanded<string> {
    match first
    case Err(p) => Err(p)
    case Ok(v) => After(done + v, rest)
  }

  lemma AfterAppends(b: string, v: string, rest: Expanded<string>)
    ensures After("", rest) == rest
    ensures After(b, After(v, rest)) == After(b + v, rest)
    ensures After(b, Ok("")) == Ok(b)
  {
    assert b + "" == b;
    if rest.Ok? {
      assert b + (v + rest.value) == (b + v) + rest.value;
      assert "" + rest.value == rest.value;
    }
  }

  lemma ValuesFirst(t: Token, ts: seq<Token>, env: Env)
    ensures Values([t] + ts, env) == Chain("", t.Value(env), Values(ts, env))
  {
    if t.Value(env).Ok? {
      assert "" + t.Value(env).value == t.Value(env).value;
    }
    assert ([t] + ts)[1..] == ts;
  }

  /** expandWord: its loop yields the tokens' values. */
  method ExpandWord(word: string, marks: seq<nat>, env: Env) returns (r: Expanded<string>)
    ensures r == Values(Tokens(word, marks, 0), env)
  {
    hide ReferenceAt, ValueOf, Values, After, Tokens;
    var b := "";
    var i := 0;
    AfterAppends("", "", Values(Tokens(word, marks, 0), env));
    while i < |word|
      invariant Values(Tokens(word, marks, 0), env) == After(b, Values(Tokens(word, marks, i), env))
      decreases |word| - i
    {
      FirstToken(word, marks, i);
      StepForward(word, marks, env, i, b);
      if word[i] != '$' {
        b := b + [word[i]];
        i := i + 1;
      } else if i + 1 < |word| && word[i + 1] == '$' {
        b := b + "$";
        i := i + 2;
      } else if i in marks {
        b := b + "$";
        i := i + 1;
      } else {
        var ref := ReadReference(word, i + 1);
        if ref.Wrong? {
          return Err(NotAName(ref.name));
        }
        if ref.NoReference? {
          b := b + "$";
          i := i + 1;
        } else {
          var text := ValueOf(ref.name, env);
          if text.Err? {
            return Err(text.error);
          }
          b := b + text.value;
          i := ref.next;
        }
      }
    }
    ValuesOfNone(env);
    AfterAppends(b, "", Ok(""));
    return Ok(b);
  }

  lemma ValuesOfNone(env: Env)
    ensures Values([], env) == Ok("")
  {
  }

  lemma FirstToken(word: string, marks: seq<nat>, i: nat)
    requires i < |word|
    ensures var t := Tokens(word, marks, i)[0];
            if word[i] != '$' then t == Byte(word[i])
            else if i + 1 < |word| && word[i + 1] == '$' then t == Pair
            else if i in marks then t == Marked
            else
              var r := ReferenceAt(word, i + 1);
              if r.NoReference? then t == Loose
              else if r.Wrong? then t == Malformed(word[i..], r.name)
              else t == Ref(word[i..r.next], r.name)
  {
    hide ReferenceAt;
  }

  /** The values from i on are the first token's, then the values from its end on. */
  lemma StepForward(word: string, marks: seq<nat>, env: Env, i: nat, b: string)
    requires i < |word|
    ensures var t := Tokens(word, marks, i)[0];
            After(b, Values(Tokens(word, marks, i), env)) == Chain(b, t.Value(env), Values(Tokens(word, marks, i + |t.Source()|), env))
  {
    hide ReferenceAt, ValueOf, Values;
    var ts := Tokens(word, marks, i);
    var next := i + |ts[0].Source()|;
    if !ts[0].Malformed? {
      assert ts == [ts[0]] + Tokens(word, marks, next);
      ValuesFirst(ts[0], Tokens(word, marks, next), env);
      if ts[0].Value(env).Ok? {
        var v := ts[0].Value(env).value;
        assert "" + v == v;
        AfterAppends(b, v, Values(Tokens(word, marks, next), env));
      }
    } else {
      assert ts == [ts[0]] + [];
      ValuesFirst(ts[0], [], env);
    }
  }

  /** Text without "$" stands for itself. */
  lemma {:induction false} TextThen(word: string, i: nat, j: nat, env: Env)
    requires i <= j <= |word| && forall k :: i <= k < j ==> word[k] != '$'
    ensures Values(Tokens(word, [], i), env) == After(word[i..j], Values(Tokens(word, [], j), env))
    decreases j - i
  {
    hide ReferenceAt, ValueOf, Values, Tokens;
    if i < j {
      TextThen(word, i + 1, j, env);
      FirstToken(word, [], i);
      StepForward(word, [], env, i, "");
      hide After, Token.Value, Token.Source;
      AfterAppends("", "", Values(Tokens(word, [], i), env));
      ByteFirst(word[i], word[i + 1..j], Values(Tokens(word, [], i + 1), env), Values(Tokens(word, [], j), env));
      assert [word[i]] + word[i + 1..j] == word[i..j];
    } else {
      assert word[i..j] == "";
      AfterAppends("", "", Values(Tokens(word, [], j), env));
    }
  }

  lemma ByteFirst(c: char, more: string, next: Expanded<string>, last: Expanded<string>)
    requires next == After(more, last)
    ensures Chain("", Ok([c]), next) == After([c] + more, last)
  {
    AfterAppends([c], more, last);
    assert "" + [c] == [c];
  }

  /** One reference in braces, with plain text around it: the text stays, and between it is
      the reference's value, or its error; what is no name is an error that quotes it. */
  lemma OneReference(a: string, name: string, b: string, env: Env)
    requires '$' !in a && '$' !in b && '}' !in name && name != ""
    ensures var got, value := Values(Tokens(a + "${" + name + "}" + b, [], 0), env), ValueOf(name, env);
            && (!IsName(name) ==> got == Err(NotAName(name)))
            && (IsName(name) && value.Err? ==> got == Err(value.error))
            && (IsName(name) && value.Ok? ==> got == Ok(a + value.value + b))
  {
    var word, n := a + "${" + name + "}" + b, |a|;
    var next := n + 3 + |name|;
    Spelled(a, name, b);
    hide Values, Tokens, IsName, ValueOf;
    TextThen(word, 0, n, env);
    InBraces(word, n, name, env);
    TextThen(word, next, |word|, env);
    NoTokens(word);
    ValuesOfNone(env);
    AfterAppends(b, "", Ok(""));
    NameIsNotEmpty(name);
    if IsName(name) && ValueOf(name, env).Ok? {
      Associate(a, ValueOf(name, env).value, b);
    }
  }

  lemma Spelled(a: string, name: string, b: string)
    ensures var word, n := a + "${" + name + "}" + b, |a|;
            var next := n + 3 + |name|;
            && next <= |word| && word[0..n] == a && word[next..|word|] == b && word[n] == '$' && word[n + 1] == '{'
            && word[n + 2..next - 1] == name && word[next - 1] == '}'
            && (forall k :: 0 <= k < n ==> word[k] == a[k]) && forall k :: next <= k < |word| ==> word[k] == b[k - next]
  {
  }

  /** Such a reference, and what stands behind it. */
  lemma InBraces(word: string, n: nat, name: string, env: Env)
    requires var next := n + 3 + |name|;
             && next <= |word| && word[n] == '$' && word[n + 1] == '{'
             && word[n + 2..next - 1] == name && word[next - 1] == '}' && '}' !in name && name != ""
    ensures var got := Values(Tokens(word, [], n), env);
            if !IsName(name) then got == Err(NotAName(name))
            else if ValueOf(name, env).Err? then got == Err(ValueOf(name, env).error)
            else got == After(ValueOf(name, env).value, Values(Tokens(word, [], n + 3 + |name|), env))
  {
    hide ReferenceAt, ValueOf, Values, Tokens, IsName;
    Braces(word, n + 1, name);
    FirstToken(word, [], n);
    StepForward(word, [], env, n, "");
    AfterAppends("", "", Values(Tokens(word, [], n), env));
    if ValueOf(name, env).Ok? {
      assert "" + ValueOf(name, env).value == ValueOf(name, env).value;
    }
  }

  /** A "$" that begins nothing stays as it was typed. */
  lemma DollarAlone(a: string, b: string, env: Env)
    requires '$' !in a && '$' !in b && (b != "" ==> !IsNameByte(b[0]) && b[0] != '{' && b[0] != '#')
    ensures Values(Tokens(a + "$" + b, [], 0), env) == Ok(a + "$" + b)
  {
    var word, n := a + "$" + b, |a|;
    assert word[n] == '$' && word[0..n] == a && word[n + 1..|word|] == b;
    assert (forall k :: 0 <= k < n ==> word[k] == a[k]) && forall k :: n < k < |word| ==> word[k] == b[k - n - 1];
    hide ReferenceAt, Values, Tokens, ValueOf;
    NoneBehind(word, n + 1);
    TextThen(word, 0, n, env);
    FirstToken(word, [], n);
    StepForward(word, [], env, n, a);
    TextThen(word, n + 1, |word|, env);
    NoTokens(word);
    ValuesOfNone(env);
    AfterAppends(b, "", Ok(""));
  }

  lemma NoTokens(word: string)
    ensures Tokens(word, [], |word|) == []
  {
  }

  lemma NameIsNotEmpty(name: string)
    ensures IsName(name) ==> name != ""
  {
  }

  /** Reading a word as tokens loses nothing of it. */
  lemma {:induction false} TokensAreTheWord(word: string, marks: seq<nat>, i: nat)
    requires i <= |word|
    ensures Sources(Tokens(word, marks, i)) == word[i..]
    decreases |word| - i
  {
    hide ReferenceAt;
    if i < |word| {
      if word[i] != '$' {
        TokensAreTheWord(word, marks, i + 1);
      } else if i + 1 < |word| && word[i + 1] == '$' {
        TokensAreTheWord(word, marks, i + 2);
        assert word[i..] == "$$" + word[i + 2..];
      } else if i in marks || ReferenceAt(word, i + 1).NoReference? {
        TokensAreTheWord(word, marks, i + 1);
      } else if ReferenceAt(word, i + 1).Found? {
        var next := ReferenceAt(word, i + 1).next;
        TokensAreTheWord(word, marks, next);
        assert word[i..] == word[i..next] + word[next..];
      } else {
        var t := Tokens(word, marks, i);
        assert t[1..] == [] && t[0].Source() + "" == word[i..];
      }
    }
  }

  /** A reference spells its own name, bare or in braces; in braces it is always a name. */
  lemma ReferenceSpellsItsName(word: string, i: nat)
    requires ReferenceAt(word, i).Found?
    ensures var r := ReferenceAt(word, i); word[i..r.next] == r.name || (word[i..r.next] == "{" + r.name + "}" && IsName(r.name))
  {
    hide IsName;
    var r := ReferenceAt(word, i);
    if word[i] == '{' {
      var end := r.next - 1;
      assert word[end] == '}' && r.name == word[i + 1..end];
      assert word[i..end + 1] == [word[i]] + word[i + 1..end] + [word[end]];
    }
  }

  // ---------------------------------------------------------------- stages

  function MarksOf(marks: Option<seq<seq<nat>>>, i: nat): seq<nat> {
    if marks.Some? && i < |marks.value| then marks.value[i] else []
  }

  /** The words expanded one for one: a value is never split again, and the first problem
      is the stage's. */
  ghost predicate ExpandsTo(argv: seq<string>, marks: Option<seq<seq<nat>>>, env: Env, out: seq<string>)
  {
    |out| == |argv| && forall k :: 0 <= k < |argv| ==> Values(Tokens(argv[k], MarksOf(marks, k), 0), env) == Ok(out[k])
  }

  /** Word k is the first that does not expand. */
  ghost predicate FailsAt(argv: seq<string>, marks: Option<seq<seq<nat>>>, env: Env, k: nat, p: Problem)
    requires k < |argv|
  {
    && Values(Tokens(argv[k], MarksOf(marks, k), 0), env) == Err(p)
    && forall j :: 0 <= j < k ==> Values(Tokens(argv[j], MarksOf(marks, j), 0), env).Ok?
  }

  method ExpandStage(argv: seq<string>, marks: Option<seq<seq<nat>>>, env: Env) returns (r: Expanded<seq<string>>)
    ensures r.Ok? ==> ExpandsTo(argv, marks, env, r.value)
    ensures r.Err? ==> exists k :: 0 <= k < |argv| && FailsAt(argv, marks, env, k, r.error)
  {
    var out := [];
    for i := 0 to |argv|
      invariant |out| == i
      invariant forall k :: 0 <= k < i ==> Values(Tokens(argv[k], MarksOf(marks, k), 0), env) == Ok(out[k])
    {
      var v := ExpandWord(argv[i], MarksOf(marks, i), env);
      if v.Err? {
        assert FailsAt(argv, marks, env, i, v.error);
        return Err(v.error);
      }
      out := out + [v.value];
    }
    return Ok(out);
  }

  // ---------------------------------------------------------------- words whose every "$" is marked

  predicate AllMarked(word: string, marks: seq<nat>) {
    forall k :: 0 <= k < |word| && word[k] == '$' ==> k in marks
  }

  /** Every "$$" as one "$". */
  function Collapsed(word: string): string {
    if word == "" then ""
    else if word[0] == '$' && |word| > 1 && word[1] == '$' then "$" + Collapsed(word[2..])
    else [word[0]] + Collapsed(word[1..])
  }

  predicate NoPair(word: string) {
    forall k :: 0 <= k < |word| - 1 ==> !(word[k] == '$' && word[k + 1] == '$')
  }

  /** "$$" is read before the marks are looked at, so it collapses even in a word the
      parser marked throughout; nothing else in such a word changes. */
  lemma {:induction false} MarkedCollapses(word: string, marks: seq<nat>, env: Env, i: nat)
    requires AllMarked(word, marks) && i <= |word|
    ensures Values(Tokens(word, marks, i), env) == Ok(Collapsed(word[i..]))
    decreases |word| - i
  {
    if i < |word| {
      var rest := word[i..];
      if word[i] == '$' && i + 1 < |word| && word[i + 1] == '$' {
        MarkedCollapses(word, marks, env, i + 2);
        assert rest[2..] == word[i + 2..];
      } else {
        MarkedCollapses(word, marks, env, i + 1);
        assert rest[1..] == word[i + 1..];
      }
    }
  }

  lemma {:induction false} CollapseShortens(word: string)
    ensures |Collapsed(word)| <= |word|
    ensures Collapsed(word) == word <==> NoPair(word)
  {
    if word == "" {
    } else if word[0] == '$' && |word| > 1 && word[1] == '$' {
      CollapseShortens(word[2..]);
    } else {
      CollapseShortens(word[1..]);
      var rest := word[1..];
      assert word == [word[0]] + rest;
      if NoPair(word) {
        forall k | 0 <= k < |rest| - 1
          ensures !(rest[k] == '$' && rest[k + 1] == '$')
        {
          assert rest[k] == word[k + 1] && rest[k + 1] == word[k + 2];
        }
      } else {
        var k :| 0 <= k < |word| - 1 && word[k] == '$' && word[k + 1] == '$';
        assert rest[k - 1] == word[k] && rest[k] == word[k + 1];
      }
    }
  }

  /** So a word the parser marked throughout comes out as it was typed exactly when it
      holds no two adjacent "$". */
  lemma MarkedWordKept(word: string, marks: seq<nat>, env: Env)
    requires AllMarked(word, marks)
    ensures Values(Tokens(word, marks, 0), env) == Ok(word) <==> NoPair(word)
  {
    MarkedCollapses(word, marks, env, 0);
    CollapseShortens(word);
    assert word[0..] == word;
  }
}
