/**
 The line-carrying lexer of the source scan, which marks the lines of a Rust file that start
 inside a string literal or a block comment.

 The lexer keeps only its state from one line to the next. `Scan` reads a whole text with its
 newlines instead, and the tokens at the end of the module say what the lexer must find in a
 text rendered from them.
 */
module LiteralLexer {
  import opened Util
  import Reading

  /** Where the lexer stands. */
  datatype State = Code | Str | RawStr(hashes: nat) | BlockComment(depth: nat)

  predicate IsWord(c: char)
  {
    'a' <= c <= 'z' || 'A' <= c <= 'Z' || '0' <= c <= '9' || c == '_'
  }

  /** How many `#` the text starts with. */
  function Hashes(s: string): nat
  {
    if s != "" && s[0] == '#' then 1 + Hashes(s[1..]) else 0
  }

  lemma {:induction false} HashesAre(s: string)
    ensures var n := Hashes(s);
            n <= |s| && (forall k :: 0 <= k < n ==> s[k] == '#') && (n < |s| ==> s[n] != '#')
  {
    if s != "" && s[0] == '#' {
      HashesAre(s[1..]);
    }
  }

  /** Whether the first `n` characters after the first are all there and all `#`. */
  predicate HashesFollow(s: string, n: nat)
  {
    |s| > n && forall k :: 1 <= k <= n ==> s[k] == '#'
  }

  /**
   What the lexer does at the start of `r`, the rest of a line, after the character `prev`:
   the state it goes to, and how many characters it moves on, which can be past the line's end.
   */
  function Step(st: State, prev: Option<char>, r: string): (res: (State, nat))
    requires r != ""
    ensures res.1 > 0
  {
    var next := if |r| > 1 then Some(r[1]) else None;
    match st
    case Code =>
      if r[0] == '/' && next == Some('/') then (Code, |r|)
      else if r[0] == '/' && next == Some('*') then (BlockComment(1), 2)
      else if r[0] == '"' then (Str, 1)
      else if r[0] == 'r' && !(prev.Some? && IsWord(prev.value)) then
        var hashes := Hashes(r[1..]);
        if 1 + hashes < |r| && r[1 + hashes] == '"' then (RawStr(hashes), 2 + hashes) else (Code, 1)
      else if r[0] == '\'' && next == Some('\\') then
        var close := Reading.IndexOf('\'', r[2..]);
        if close.Some? then (Code, 3 + close.value) else (Code, 1)
      else if r[0] == '\'' && |r| > 2 && r[2] == '\'' then (Code, 3)
      else (Code, 1)
    case Str =>
      if r[0] == '\\' then (Str, 2) else if r[0] == '"' then (Code, 1) else (Str, 1)
    case RawStr(hashes) =>
      if r[0] == '"' && HashesFollow(r, hashes) then (Code, 1 + hashes) else (st, 1)
    case BlockComment(depth) =>
      if r[0] == '*' && next == Some('/') then
        (if depth <= 1 then Code else BlockComment(depth - 1), 2)
      else if r[0] == '/' && next == Some('*') then (BlockComment(depth + 1), 2)
      else (st, 1)
  }

  // ---- Line by line ------------------------------------------------------------------------

  /** The state after the rest `r` of a line. */
  function LineEnd(st: State, prev: Option<char>, r: string): State
    decreases |r|
  {
    if r == "" then st
    else
      var (st', n) := Step(st, prev, r);
      if n >= |r| then st' else LineEnd(st', Some(r[n - 1]), r[n..])
  }

  /** The states that lines begin in, as whether each is other than `Code`. */
  function Flags(st: State, lines: seq<string>): (flags: seq<bool>)
    ensures |flags| == |lines|
    decreases |lines|
  {
    if lines == [] then [] else [st != Code] + Flags(LineEnd(st, None, lines[0]), lines[1..])
  }

  /** Reads one line, character by character. */
  method LexLine(first: State, chars: string) returns (state: State)
    ensures state == LineEnd(first, None, chars)
  {
    state := first;
    var i := 0;
    while i < |chars|
      invariant i >= |chars| ==> state == LineEnd(first, None, chars)
      invariant i < |chars| ==>
        LineEnd(state, if i == 0 then None else Some(chars[i - 1]), chars[i..]) == LineEnd(first, None, chars)
    {
      var prev := if i == 0 then None else Some(chars[i - 1]);
      var (state', moved) := Step(state, prev, chars[i..]);
      assert i + moved < |chars| ==> chars[i..][moved..] == chars[i + moved..];
      state, i := state', i + moved;
    }
  }

  method StartsInsideLiteral(lines: seq<string>) returns (inside: seq<bool>)
    ensures inside == Flags(Code, lines)
  {
    inside := [];
    var state := Code;
    var at := 0;
    while at < |lines|
      invariant at <= |lines|
      invariant inside + Flags(state, lines[at..]) == Flags(Code, lines)
    {
      inside := inside + [state != Code];
      state := LexLine(state, lines[at]);
      assert lines[at..][1..] == lines[at + 1..];
      at := at + 1;
    }
  }

  // ---- The whole text ----------------------------------------------------------------------

  function FirstLine(t: string): (line: string)
    ensures |line| <= |t|
  {
    if t == "" || t[0] == '\n' then "" else [t[0]] + FirstLine(t[1..])
  }

  lemma {:induction false} FirstLineIs(t: string)
    ensures var line := FirstLine(t);
            '\n' !in line && line == t[..|line|] && (|line| < |t| ==> t[|line|] == '\n')
  {
    if !(t == "" || t[0] == '\n') {
      var rest := FirstLine(t[1..]);
      FirstLineIs(t[1..]);
      assert FirstLine(t) == [t[0]] + rest;
      assert t[..|rest| + 1] == [t[0]] + t[1..][..|rest|];
    }
  }

  /** The lines of a text, whose last line need not end in a newline. */
  function Lines(t: string): seq<string>
    decreases |t|
  {
    if t == "" then []
    else
      var line := FirstLine(t);
      [line] + if |line| == |t| then [] else Lines(t[|line| + 1..])
  }

  /** The line that starts with `s`, which holds no newline. */
  lemma {:induction false} FirstLineOf(s: string, t: string)
    requires '\n' !in s
    ensures FirstLine(s + t) == s + FirstLine(t)
  {
    if s == "" {
      assert s + t == t;
    } else {
      FirstLineOf(s[1..], t);
      assert (s + t)[1..] == s[1..] + t;
    }
  }

  /** The state after one step, the character before what it leaves of the line, and that. */
  function Move(st: State, prev: Option<char>, line: string): (m: (State, Option<char>, string))
    requires line != ""
    ensures |m.2| < |line| && m.2 == line[|line| - |m.2|..]
  {
    var (st', n) := Step(st, prev, line);
    var moved := if n < |line| then n else |line|;
    (st', Some(line[moved - 1]), line[moved..])
  }

  /** Reads the text from `t` on: for each newline, whether the lexer is outside code there. */
  function Scan(st: State, prev: Option<char>, t: string): seq<bool>
    decreases |t|
  {
    if t == "" then []
    else if t[0] == '\n' then [st != Code] + Scan(st, None, t[1..])
    else
      var m := Move(st, prev, FirstLine(t));
      Scan(m.0, m.1, t[|FirstLine(t)| - |m.2|..])
  }

  /** One step of the lexer inside a line of the text. */
  lemma {:induction false} ScanMove(st: State, prev: Option<char>, line: string, t: string)
    requires line != "" && '\n' !in line && (t == "" || t[0] == '\n')
    ensures var m := Move(st, prev, line); Scan(st, prev, line + t) == Scan(m.0, m.1, m.2 + t)
  {
    FirstLineWhole(line, t);
    StartsWithLine(line, t);
    RestOfText(line, t, Move(st, prev, line).2);
  }

  lemma StartsWithLine(line: string, t: string)
    requires line != "" && '\n' !in line
    ensures (line + t)[0] != '\n' && line == (line + t)[..|line|]
  {
    assert line[0] in line;
  }

  lemma RestOfText(line: string, t: string, rest: string)
    requires |rest| <= |line| && rest == line[|line| - |rest|..]
    ensures (line + t)[|line| - |rest|..] == rest + t
  {
  }

  lemma {:induction false} FirstLineWhole(line: string, t: string)
    requires '\n' !in line && (t == "" || t[0] == '\n')
    ensures FirstLine(line + t) == line
  {
    FirstLineOf(line, t);
    assert line + "" == line;
  }

  lemma {:induction false} LineEndMove(st: State, prev: Option<char>, line: string)
    requires line != ""
    ensures var m := Move(st, prev, line); LineEnd(st, prev, line) == LineEnd(m.0, m.1, m.2)
  {
  }

  /** Reading one line of the text leaves the lexer where `LineEnd` says. */
  lemma {:induction false} ScanLine(st: State, prev: Option<char>, line: string, t: string) returns (last: Option<char>)
    requires '\n' !in line && (t == "" || t[0] == '\n')
    ensures Scan(st, prev, line + t) == Scan(LineEnd(st, prev, line), last, t)
    decreases |line|
  {
    if line == "" {
      last := prev;
      assert line + t == t;
    } else {
      var m := Move(st, prev, line);
      ScanMove(st, prev, line, t);
      LineEndMove(st, prev, line);
      last := ScanLine(m.0, m.1, m.2, t);
    }
  }

  /** What the text's first newline adds to the scan. */
  lemma ScanPastLine(st: State, line: string, rest: string)
    requires '\n' !in line
    ensures Scan(st, None, line + ("\n" + rest)) == [LineEnd(st, None, line) != Code] + Scan(LineEnd(st, None, line), None, rest)
  {
    var last := ScanLine(st, None, line, "\n" + rest);
    assert ("\n" + rest)[1..] == rest;
  }

  lemma TakeOne<T>(x: T, s: seq<T>, n: nat)
    requires n <= |s|
    ensures [x] + s[..n] == ([x] + s)[..n + 1]
  {
  }

  /** The lexer's line flags are the flags of the newlines before them. */
  lemma {:induction false} FlagsFromScan(st: State, t: string)
    ensures |Lines(t)| <= 1 + |Scan(st, None, t)|
    ensures Flags(st, Lines(t)) == ([st != Code] + Scan(st, None, t))[..|Lines(t)|]
    decreases |t|
  {
    if t != "" {
      var line := FirstLine(t);
      FirstLineIs(t);
      if |line| < |t| {
        var rest := t[|line| + 1..];
        var st' := LineEnd(st, None, line);
        assert t == line + ("\n" + rest);
        ScanPastLine(st, line, rest);
        FlagsFromScan(st', rest);
        assert Lines(t) == [line] + Lines(rest);
        TakeOne(st != Code, [st' != Code] + Scan(st', None, rest), |Lines(rest)|);
      } else {
        assert Lines(t) == [line];
      }
    }
  }

  // ---- Tokens ------------------------------------------------------------------------------

  /** A piece of a string literal: a character as it is, or a backslash and what it escapes. */
  datatype StrUnit = Char(c: char) | Escaped(c: char)

  /** What a block comment holds, up to the `*``/` that closes it. */
  datatype Body = End | Text(c: char, rest: Body) | Nested(inner: Body, rest: Body)

  datatype Token =
    | Plain(text: string)
    | Lifetime(name: string)
    | CharLiteral(c: char)
    /** `'\n'`, `'\u{7f}'`: a backslash, what it escapes, and anything more. */
    | EscapedChar(c: char, more: string)
    /** The literal `'\''`. */
    | EscapedQuote
    | StrLiteral(units: seq<StrUnit>)
    | RawLiteral(hashes: nat, text: string)
    | LineComment(text: string)
    | Comment(body: Body)

  function Repeat(c: char, n: nat): (s: string)
    ensures |s| == n && forall k :: 0 <= k < n ==> s[k] == c
  {
    if n == 0 then "" else [c] + Repeat(c, n - 1)
  }

  function RenderUnits(units: seq<StrUnit>): string
  {
    if units == [] then ""
    else (if units[0].Char? then [units[0].c] else ['\\', units[0].c]) + RenderUnits(units[1..])
  }

  function RenderBody(body: Body): string
  {
    match body
    case End => ""
    case Text(c, rest) => [c] + RenderBody(rest)
    case Nested(inner, rest) => "/*" + RenderBody(inner) + "*/" + RenderBody(rest)
  }

  function Render(tok: Token): string
  {
    match tok
    case Plain(text) => text
    case Lifetime(name) => "'" + name
    case CharLiteral(c) => ['\'', c, '\'']
    case EscapedChar(c, more) => ['\'', '\\', c] + more + "'"
    case EscapedQuote => ['\'', '\\', '\'', '\'']
    case StrLiteral(units) => "\"" + RenderUnits(units) + "\""
    case RawLiteral(hashes, text) => "r" + Repeat('#', hashes) + "\"" + text + "\"" + Repeat('#', hashes)
    case LineComment(text) => "//" + text
    case Comment(body) => "/*" + RenderBody(body) + "*/"
  }

  /** Plain code holds nothing that opens a literal or a comment. */
  predicate IsPlain(s: string)
  {
    forall c :: c in s ==> c != '"' && c != '\'' && c != '/'
  }

  /** A `*` or `/` of the text stands where it makes no comment mark with the character after it. */
  predicate BodyOk(body: Body)
  {
    match body
    case End => true
    case Text(c, rest) =>
      && BodyOk(rest)
      && var after := (RenderBody(rest) + "*/")[0];
         (c == '/' ==> after != '*') && (c == '*' ==> after != '/')
    case Nested(inner, rest) => BodyOk(inner) && BodyOk(rest)
  }

  predicate TokenOk(tok: Token)
  {
    match tok
    case Plain(text) => IsPlain(text)
    case Lifetime(name) => IsPlain(name) && name != "" && name[0] != '\\'
    case CharLiteral(c) => c != '\\' && c != '\'' && c != '\n'
    case EscapedChar(c, more) => c != '\'' && c != '\n' && '\'' !in more && '\n' !in more
    case EscapedQuote => true
    case StrLiteral(units) => forall u :: u in units && u.Char? ==> u.c != '"' && u.c != '\\'
    case RawLiteral(hashes, text) => forall i :: 0 <= i <= |text| ==> !("\"" + Repeat('#', hashes) <= text[i..])
    case LineComment(text) => '\n' !in text
    case Comment(body) => BodyOk(body)
  }

  /** A token and the space or newline after it. */
  datatype Spaced = Spaced(tok: Token, sep: char)

  function RenderAll(toks: seq<Spaced>): string
  {
    if toks == [] then "" else Render(toks[0].tok) + [toks[0].sep] + RenderAll(toks[1..])
  }

  /** Tokens that begin with an apostrophe. */
  predicate Quoted(tok: Token)
  {
    tok.Lifetime? || tok.CharLiteral? || tok.EscapedChar? || tok.EscapedQuote?
  }

  /** Such a token without its first apostrophe is still read as code. */
  predicate Harmless(tok: Token)
  {
    match tok
    case CharLiteral(c) => c != '"'
    case EscapedChar(c, more) => IsPlain([c] + more)
    case _ => true
  }

  /**
   Whether a token ends in an apostrophe the lexer meets as if it opened something: the last one of
   `'\''`, and that of a literal whose first apostrophe it took for another's.
   */
  predicate EndsStray(tok: Token, stray: bool)
  {
    tok.EscapedQuote? || (stray && (tok.CharLiteral? || tok.EscapedChar?))
  }

  /**
   Tokens that stand apart: a line comment ends its line, and one space after a stray apostrophe
   no character literal holds a quote or a slash (`MisreadQuote` shows why).
   */
  predicate TokensOk(toks: seq<Spaced>, stray: bool)
  {
    toks != [] ==>
      && TokenOk(toks[0].tok)
      && (toks[0].sep == ' ' || toks[0].sep == '\n')
      && (toks[0].tok.LineComment? ==> toks[0].sep == '\n')
      && (stray ==> Harmless(toks[0].tok))
      && TokensOk(toks[1..], toks[0].sep == ' ' && EndsStray(toks[0].tok, stray))
  }

  /** `inside` once for each newline of `s`. */
  function Marks(s: string, inside: bool): seq<bool>
  {
    if s == "" then [] else (if s[0] == '\n' then [inside] else []) + Marks(s[1..], inside)
  }

  /** For each newline of the rendered tokens, whether a string or a block comment holds it. */
  function MarksOf(toks: seq<Spaced>): seq<bool>
  {
    if toks == [] then []
    else
      var tok := toks[0].tok;
      Marks(Render(tok), tok.StrLiteral? || tok.RawLiteral? || tok.Comment?)
      + Marks([toks[0].sep], false) + MarksOf(toks[1..])
  }

  // ---- Each token is read as one -----------------------------------------------------------

  lemma {:induction false} MarksAppend(a: string, b: string, inside: bool)
    ensures Marks(a + b, inside) == Marks(a, inside) + Marks(b, inside)
  {
    if a == "" {
      assert a + b == b;
    } else {
      MarksAppend(a[1..], b, inside);
      assert (a + b)[1..] == a[1..] + b && (a + b)[0] == a[0];
      var head := if a[0] == '\n' then [inside] else [];
      Associative(head, Marks(a[1..], inside), Marks(b, inside));
    }
  }

  lemma {:induction false} NoMarks(s: string, inside: bool)
    requires '\n' !in s
    ensures Marks(s, inside) == []
  {
    if s != "" {
      NoMarks(s[1..], inside);
    }
  }

  /** The character before the next, on its line. */
  function After(c: char): Option<char>
  {
    if c == '\n' then None else Some(c)
  }

  /** Joins what two stretches of text add to a scan. */
  lemma Joined(whole: seq<bool>, a: seq<bool>, mid: seq<bool>, b: seq<bool>, rest: seq<bool>, ab: seq<bool>)
    requires whole == a + mid && mid == b + rest && ab == a + b
    ensures whole == ab + rest
  {
  }

  /** A character the lexer moves past on its own. */
  lemma OneChar(st: State, prev: Option<char>, c: char, t: string)
    requires c != '\n' ==> Step(st, prev, FirstLine([c] + t)) == (st, 1)
    ensures Scan(st, prev, [c] + t) == Marks([c], st != Code) + Scan(st, After(c), t)
  {
    assert ([c] + t)[1..] == t;
    assert Marks([c], st != Code) == if c == '\n' then [st != Code] else [];
  }

  /** Characters of one line that the lexer takes at once. */
  lemma Taken(st: State, prev: Option<char>, s: string, st': State, t: string)
    requires s != "" && '\n' !in s
    requires Step(st, prev, s + FirstLine(t)) == (st', |s|)
    ensures Scan(st, prev, s + t) == Scan(st', Some(s[|s| - 1]), t)
  {
    FirstLineOf(s, t);
    assert (s + t)[|s|..] == t;
  }

  /** In plain code, an `r` starts no raw string. */
  lemma PlainStep(prev: Option<char>, s: string, t: string)
    requires IsPlain(s) && s != "" && s[0] != '\n'
    requires t != "" && t[0] != '"' && t[0] != '#'
    ensures Step(Code, prev, FirstLine(s + t)) == (Code, 1)
  {
    var text := s + t;
    var r := FirstLine(text);
    assert s[0] in s && r[0] == s[0];
    var hashes := Hashes(r[1..]);
    FirstLineIs(text);
    HashesAre(r[1..]);
    assert forall k :: 1 <= k < 1 + hashes ==> r[k] == r[1..][k - 1] == '#';
    assert text[|s|] == t[0];
    assert |s| < |r| ==> r[|s|] == t[0];
    assert hashes < |s|;
    assert 1 + hashes < |r| ==> r[1 + hashes] == text[1 + hashes];
    assert 1 + hashes < |s| ==> s[1 + hashes] in s;
  }

  /** Plain code moves on one character at a time and stays code. */
  lemma {:induction false} PlainScan(prev: Option<char>, s: string, t: string) returns (last: Option<char>)
    requires IsPlain(s)
    requires t != "" && t[0] != '"' && t[0] != '#'
    ensures Scan(Code, prev, s + t) == Marks(s, false) + Scan(Code, last, t)
    decreases |s|
  {
    if s == "" {
      last := prev;
      assert s + t == t;
    } else {
      assert s + t == [s[0]] + (s[1..] + t);
      if s[0] != '\n' {
        PlainStep(prev, s, t);
      }
      OneChar(Code, prev, s[0], s[1..] + t);
      assert forall c :: c in s[1..] ==> c in s;
      last := PlainScan(After(s[0]), s[1..], t);
      MarksAppend([s[0]], s[1..], false);
      assert [s[0]] + s[1..] == s;
      Joined(Scan(Code, prev, s + t), Marks([s[0]], false), Scan(Code, After(s[0]), s[1..] + t),
             Marks(s[1..], false), Scan(Code, last, t), Marks(s, false));
    }
  }

  /** Characters that end their line, where the lexer moves at least as far as they go. */
  lemma TakenToEnd(st: State, prev: Option<char>, s: string, st': State, t: string)
    requires s != "" && '\n' !in s && (t == "" || t[0] == '\n')
    requires Step(st, prev, s).0 == st' && Step(st, prev, s).1 >= |s|
    ensures Scan(st, prev, s + t) == Scan(st', Some(s[|s| - 1]), t)
  {
    FirstLineOf(s, t);
    assert FirstLine(s + t) == s;
    assert (s + t)[|s|..] == t;
  }

  lemma EscapedNewline(prev: Option<char>, t: string)
    ensures Scan(Str, prev, "\\" + ("\n" + t)) == [true] + Scan(Str, None, t)
  {
    var text := "\n" + t;
    assert text[1..] == t;
    TakenToEnd(Str, prev, "\\", Str, text);
  }

  lemma EscapedOther(prev: Option<char>, c: char, t: string)
    requires c != '\n'
    ensures Scan(Str, prev, ['\\', c] + t) == Scan(Str, Some(c), t)
  {
    Taken(Str, prev, ['\\', c], Str, t);
  }

  lemma EscapeMarks(c: char)
    ensures Marks(['\\', c], true) == if c == '\n' then [true] else []
  {
    assert ['\\', c][1..] == [c];
    assert [c][1..] == "";
    assert Marks([c], true) == (if c == '\n' then [true] else []) + Marks("", true);
  }

  lemma EscapeScan(prev: Option<char>, c: char, t: string)
    ensures Scan(Str, prev, ['\\', c] + t) == Marks(['\\', c], true) + Scan(Str, After(c), t)
  {
    EscapeMarks(c);
    if c == '\n' {
      EscapedNewline(prev, t);
      assert ['\\', '\n'] + t == "\\" + ("\n" + t);
    } else {
      EscapedOther(prev, c, t);
    }
  }

  lemma UnitScan(prev: Option<char>, u: StrUnit, t: string)
    requires u.Char? ==> u.c != '"' && u.c != '\\'
    ensures var piece := if u.Char? then [u.c] else ['\\', u.c];
            Scan(Str, prev, piece + t) == Marks(piece, true) + Scan(Str, After(u.c), t)
  {
    if u.Char? {
      OneChar(Str, prev, u.c, t);
    } else {
      EscapeScan(prev, u.c, t);
    }
  }

  /** Once in a string, the lexer leaves it at its closing quote. */
  lemma {:induction false} StrScan(prev: Option<char>, units: seq<StrUnit>, t: string)
    requires TokenOk(StrLiteral(units))
    ensures Scan(Str, prev, RenderUnits(units) + ("\"" + t)) == Marks(RenderUnits(units), true) + Scan(Code, Some('"'), t)
    decreases |units|
  {
    if units == [] {
      assert RenderUnits(units) + ("\"" + t) == "\"" + t;
      Taken(Str, prev, "\"", Code, t);
    } else {
      var u, more := units[0], RenderUnits(units[1..]);
      var tail := more + ("\"" + t);
      var piece := if u.Char? then [u.c] else ['\\', u.c];
      assert RenderUnits(units) + ("\"" + t) == piece + tail;
      UnitScan(prev, u, tail);
      StrScan(After(u.c), units[1..], t);
      MarksAppend(piece, more, true);
      Joined(Scan(Str, prev, piece + tail), Marks(piece, true), Scan(Str, After(u.c), tail),
             Marks(more, true), Scan(Code, Some('"'), t), Marks(piece + more, true));
    }
  }

  lemma FollowsInText(s: string, t: string, r: string, n: nat)
    requires s != "" && r <= s + ("\"" + t) && r != "" && r[0] == '"' && HashesFollow(r, n)
    ensures "\"" + Repeat('#', n) <= s
  {
    var text := s + ("\"" + t);
    assert forall k :: 0 <= k < |r| ==> r[k] == text[k];
    assert text[|s|] == '"';
    assert |s| < |r| ==> r[|s|] == '"';
    assert |s| > n;
    assert forall k :: 0 <= k <= n ==> s[k] == text[k];
    assert s[..n + 1] == "\"" + Repeat('#', n);
  }

  /** A quote of a raw string's text is not followed by the hashes that would close it. */
  lemma RawStep(prev: Option<char>, hashes: nat, s: string, t: string)
    requires TokenOk(RawLiteral(hashes, s)) && s != "" && s[0] != '\n'
    ensures Step(RawStr(hashes), prev, FirstLine(s + ("\"" + t))) == (RawStr(hashes), 1)
  {
    var r := FirstLine(s + ("\"" + t));
    FirstLineIs(s + ("\"" + t));
    assert s[0..] == s;
    if r[0] == '"' && HashesFollow(r, hashes) {
      FollowsInText(s, t, r, hashes);
    }
  }

  lemma RawRest(hashes: nat, s: string)
    requires TokenOk(RawLiteral(hashes, s)) && s != ""
    ensures TokenOk(RawLiteral(hashes, s[1..]))
  {
    forall i | 0 <= i <= |s[1..]| ensures !("\"" + Repeat('#', hashes) <= s[1..][i..]) {
      assert s[1..][i..] == s[i + 1..];
    }
  }

  /** Once in a raw string, the lexer leaves it at its closing quote and hashes. */
  lemma {:induction false} RawScan(prev: Option<char>, hashes: nat, s: string, t: string) returns (last: Option<char>)
    requires TokenOk(RawLiteral(hashes, s))
    ensures Scan(RawStr(hashes), prev, s + ("\"" + (Repeat('#', hashes) + t))) == Marks(s, true) + Scan(Code, last, t)
    decreases |s|
  {
    var tail := "\"" + (Repeat('#', hashes) + t);
    if s == "" {
      var close := "\"" + Repeat('#', hashes);
      assert s + tail == close + t;
      last := Some(close[hashes]);
      Taken(RawStr(hashes), prev, close, Code, t);
    } else {
      assert s + tail == [s[0]] + (s[1..] + tail);
      if s[0] != '\n' {
        RawStep(prev, hashes, s, Repeat('#', hashes) + t);
      }
      OneChar(RawStr(hashes), prev, s[0], s[1..] + tail);
      RawRest(hashes, s);
      last := RawScan(After(s[0]), hashes, s[1..], t);
      MarksAppend([s[0]], s[1..], true);
      assert [s[0]] + s[1..] == s;
      Joined(Scan(RawStr(hashes), prev, s + tail), Marks([s[0]], true), Scan(RawStr(hashes), After(s[0]), s[1..] + tail),
             Marks(s[1..], true), Scan(Code, last, t), Marks(s, true));
    }
  }

  lemma BodyStep(depth: nat, prev: Option<char>, c: char, rest: Body, t: string)
    requires BodyOk(Text(c, rest)) && c != '\n' && "*/" <= t
    ensures Step(BlockComment(depth), prev, FirstLine([c] + (RenderBody(rest) + t))) == (BlockComment(depth), 1)
  {
    var tail := RenderBody(rest) + t;
    FirstLineIs([c] + tail);
    var r := FirstLine([c] + tail);
    if |r| > 1 {
      assert r[1] == tail[0] && tail[0] == (RenderBody(rest) + "*/")[0];
    }
  }

  /** A comment's body leaves the lexer as deep in comments as it found it. */
  lemma {:induction false} BodyScan(prev: Option<char>, depth: nat, body: Body, t: string) returns (last: Option<char>)
    requires BodyOk(body) && depth > 0 && "*/" <= t
    ensures Scan(BlockComment(depth), prev, RenderBody(body) + t)
         == Marks(RenderBody(body), true) + Scan(BlockComment(depth), last, t)
    decreases body
  {
    match body
    case End =>
      last := prev;
      assert RenderBody(body) + t == t;
    case Text(c, rest) =>
      var tail := RenderBody(rest) + t;
      assert RenderBody(body) + t == [c] + tail;
      if c != '\n' {
        BodyStep(depth, prev, c, rest, t);
      }
      OneChar(BlockComment(depth), prev, c, tail);
      last := BodyScan(After(c), depth, rest, t);
      MarksAppend([c], RenderBody(rest), true);
      Joined(Scan(BlockComment(depth), prev, [c] + tail), Marks([c], true), Scan(BlockComment(depth), After(c), tail),
             Marks(RenderBody(rest), true), Scan(BlockComment(depth), last, t), Marks(RenderBody(body), true));
    case Nested(inner, rest) =>
      var tail := RenderBody(rest) + t;
      var close := "*/" + tail;
      assert RenderBody(body) + t == "/*" + (RenderBody(inner) + close);
      OpenNested(prev, depth, RenderBody(inner) + close);
      var mid := BodyScan(Some('*'), depth + 1, inner, close);
      CloseNested(mid, depth, tail);
      last := BodyScan(Some('/'), depth, rest, t);
      NestedMarks(inner, rest);
      Joined(Scan(BlockComment(depth), prev, RenderBody(body) + t),
             Marks(RenderBody(inner), true), Scan(BlockComment(depth), Some('/'), tail),
             Marks(RenderBody(rest), true), Scan(BlockComment(depth), last, t), Marks(RenderBody(body), true));
  }

  lemma OpenNested(prev: Option<char>, depth: nat, t: string)
    ensures Scan(BlockComment(depth), prev, "/*" + t) == Scan(BlockComment(depth + 1), Some('*'), t)
  {
    Taken(BlockComment(depth), prev, "/*", BlockComment(depth + 1), t);
  }

  lemma CloseNested(prev: Option<char>, depth: nat, t: string)
    requires depth > 0
    ensures Scan(BlockComment(depth + 1), prev, "*/" + t) == Scan(BlockComment(depth), Some('/'), t)
  {
    Taken(BlockComment(depth + 1), prev, "*/", BlockComment(depth), t);
  }

  lemma NestedMarks(inner: Body, rest: Body)
    ensures Marks(RenderBody(Nested(inner, rest)), true) == Marks(RenderBody(inner), true) + Marks(RenderBody(rest), true)
  {
    var first := "/*" + RenderBody(inner) + "*/";
    Enclosed("/*", RenderBody(inner), "*/");
    MarksAppend(first, RenderBody(rest), true);
    assert RenderBody(Nested(inner, rest)) == first + RenderBody(rest);
  }

  /** One token, up to the separator `t` starts with, is read as one. */
  lemma TokenScan(prev: Option<char>, tok: Token, t: string) returns (last: Option<char>)
    requires TokenOk(tok) && (prev.Some? ==> !IsWord(prev.value))
    requires t != "" && (t[0] == ' ' || t[0] == '\n')
    requires tok.LineComment? ==> t[0] == '\n'
    requires tok.EscapedQuote? && t[0] == ' ' ==> !("'" <= t[1..])
    ensures Scan(Code, prev, Render(tok) + t)
         == Marks(Render(tok), tok.StrLiteral? || tok.RawLiteral? || tok.Comment?) + Scan(Code, last, t)
  {
    match tok
    case Plain(text) => last := PlainScan(prev, text, t);
    case Lifetime(name) => last := LifetimeScan(prev, name, t);
    case CharLiteral(c) =>
      last := Some('\'');
      var s := Render(tok);
      Taken(Code, prev, s, Code, t);
      NoMarks(s, false);
    case EscapedChar(c, more) => last := EscapedCharScan(prev, c, more, t);
    case EscapedQuote => last := EscapedQuoteScan(prev, t);
    case StrLiteral(units) => last := StrLiteralScan(prev, units, t);
    case RawLiteral(hashes, text) => last := RawLiteralScan(prev, hashes, text, t);
    case LineComment(text) =>
      last := Some(Render(tok)[|text| + 1]);
      TakenToEnd(Code, prev, Render(tok), Code, t);
      NoMarks(Render(tok), false);
    case Comment(body) =>
      last := Some('/');
      CommentScan(prev, body, t);
  }

  lemma LifetimeScan(prev: Option<char>, name: string, t: string) returns (last: Option<char>)
    requires TokenOk(Lifetime(name))
    requires t != "" && (t[0] == ' ' || t[0] == '\n')
    ensures Scan(Code, prev, "'" + name + t) == Marks("'" + name, false) + Scan(Code, last, t)
  {
    var text := "'" + (name + t);
    Associative("'", name, t);
    FirstLineIs(text);
    var r := FirstLine(text);
    assert |r| > 1 ==> r[1] == text[1];
    assert |r| > 2 ==> r[2] == text[2] && (2 <= |name| ==> name[1] in name);
    assert |name| == 1 ==> text[2] == t[0];
    OneChar(Code, prev, '\'', name + t);
    last := PlainScan(Some('\''), name, t);
    MarksAppend("'", name, false);
    Joined(Scan(Code, prev, text), Marks("'", false), Scan(Code, Some('\''), name + t),
           Marks(name, false), Scan(Code, last, t), Marks("'" + name, false));
  }

  lemma EscapedCharScan(prev: Option<char>, c: char, more: string, t: string) returns (last: Option<char>)
    requires TokenOk(EscapedChar(c, more))
    ensures Scan(Code, prev, Render(EscapedChar(c, more)) + t)
         == Marks(Render(EscapedChar(c, more)), false) + Scan(Code, last, t)
  {
    var s := Render(EscapedChar(c, more));
    EscapedCharStep(prev, c, more, FirstLine(t));
    last := Some('\'');
    Taken(Code, prev, s, Code, t);
    NoMarks(s, false);
  }

  lemma EscapedCharStep(prev: Option<char>, c: char, more: string, line: string)
    requires TokenOk(EscapedChar(c, more))
    ensures Step(Code, prev, Render(EscapedChar(c, more)) + line) == (Code, |more| + 4)
  {
    var r := Render(EscapedChar(c, more)) + line;
    FirstQuote([c] + more, line);
    assert r[2..] == [c] + more + ("'" + line);
  }

  lemma {:induction false} FirstQuote(s: string, t: string)
    requires '\'' !in s
    ensures Reading.IndexOf('\'', s + ("'" + t)) == Some(|s|)
  {
    var text := s + ("'" + t);
    if s != "" {
      assert s[0] in s && text[1..] == s[1..] + ("'" + t);
      FirstQuote(s[1..], t);
    }
  }

  /** The lexer takes the first three characters of `'\''` at once and the last on its own. */
  lemma EscapedQuoteScan(prev: Option<char>, t: string) returns (last: Option<char>)
    requires t != "" && (t[0] == ' ' || t[0] == '\n')
    requires t[0] == ' ' ==> !("'" <= t[1..])
    ensures Scan(Code, prev, Render(EscapedQuote) + t) == Marks(Render(EscapedQuote), false) + Scan(Code, last, t)
  {
    EscapedQuoteOpens(prev, t);
    assert t[0] == ' ' && |t| > 1 ==> t[1] == t[1..][0];
    LoneApostrophe(Some('\''), t);
    last := Some('\'');
    NoMarks(Render(EscapedQuote), false);
  }

  lemma StrLiteralScan(prev: Option<char>, units: seq<StrUnit>, t: string) returns (last: Option<char>)
    requires TokenOk(StrLiteral(units))
    ensures Scan(Code, prev, Render(StrLiteral(units)) + t)
         == Marks(Render(StrLiteral(units)), true) + Scan(Code, last, t)
  {
    var inner := RenderUnits(units);
    Regroup("\"", inner, "\"", t);
    OpenString(prev, inner + ("\"" + t));
    StrScan(Some('"'), units, t);
    last := Some('"');
    Enclosed("\"", inner, "\"");
  }

  lemma OpenString(prev: Option<char>, t: string)
    ensures Scan(Code, prev, "\"" + t) == Scan(Str, Some('"'), t)
  {
    Taken(Code, prev, "\"", Str, t);
  }

  lemma Enclosed(open: string, inner: string, close: string)
    requires '\n' !in open && '\n' !in close
    ensures Marks(open + inner + close, true) == Marks(inner, true)
  {
    MarksAppend(open + inner, close, true);
    MarksAppend(open, inner, true);
    NoMarks(open, true);
    NoMarks(close, true);
  }

  lemma OpenRaw(prev: Option<char>, hashes: nat, t: string)
    requires prev.Some? ==> !IsWord(prev.value)
    ensures Scan(Code, prev, ("r" + Repeat('#', hashes) + "\"") + t) == Scan(RawStr(hashes), Some('"'), t)
  {
    var open := "r" + Repeat('#', hashes) + "\"";
    var r := open + FirstLine(t);
    var n := Hashes(r[1..]);
    HashesAre(r[1..]);
    assert forall k :: 0 <= k < hashes ==> r[1..][k] == '#';
    assert r[1..][hashes] == '"';
    assert n == hashes;
    Taken(Code, prev, open, RawStr(hashes), t);
  }

  /**
   An `r` with its hashes and quote opens a raw string, but after a character of a word: there only
   its quote opens a string, one with escapes.
   */
  lemma RawOnlyApart(prev: Option<char>, hashes: nat, t: string)
    ensures Scan(Code, prev, "r" + Repeat('#', hashes) + "\"" + t) ==
      if prev.Some? && ('a' <= prev.value <= 'z' || 'A' <= prev.value <= 'Z' || '0' <= prev.value <= '9' || prev.value == '_')
      then Scan(Str, Some('"'), t)
      else Scan(RawStr(hashes), Some('"'), t)
  {
    if prev.Some? && IsWord(prev.value) {
      var rest := Repeat('#', hashes) + ("\"" + t);
      assert "r" + Repeat('#', hashes) + "\"" + t == "r" + rest;
      RWithin(prev, rest);
      HashesAsCode(Some('r'), hashes, "\"" + t);
      OpenString(if hashes == 0 then Some('r') else Some('#'), t);
    } else {
      OpenRaw(prev, hashes, t);
    }
  }

  lemma RWithin(prev: Option<char>, t: string)
    requires prev.Some? && IsWord(prev.value)
    ensures Scan(Code, prev, "r" + t) == Scan(Code, Some('r'), t)
  {
    Taken(Code, prev, "r", Code, t);
  }

  lemma {:induction false} HashesAsCode(prev: Option<char>, n: nat, t: string)
    ensures Scan(Code, prev, Repeat('#', n) + t) == Scan(Code, if n == 0 then prev else Some('#'), t)
    decreases n
  {
    if n == 0 {
      assert Repeat('#', n) + t == t;
    } else {
      assert Repeat('#', n) + t == "#" + (Repeat('#', n - 1) + t);
      Taken(Code, prev, "#", Code, Repeat('#', n - 1) + t);
      HashesAsCode(Some('#'), n - 1, t);
    }
  }

  /** So the lexer reads a raw byte string as one with escapes. */
  lemma ByteRawIsStr(t: string)
    ensures Scan(Code, None, "b" + ("r" + Repeat('#', 0) + "\"" + t)) == Scan(Str, Some('"'), t)
  {
    Taken(Code, None, "b", Code, "r" + Repeat('#', 0) + "\"" + t);
    RawOnlyApart(Some('b'), 0, t);
  }

  lemma EscapedAtEnd(prev: Option<char>)
    ensures Scan(Str, prev, ['\\', '"'] + "\n") == [true]
  {
    EscapeScan(prev, '"', "\n");
    EscapeMarks('"');
    NewlineAlone(Str, After('"'));
  }

  /** One that ends in a backslash is not over for the lexer at its quote: `br"\"`. */
  lemma ByteRawMisread()
    ensures Scan(Code, None, ['b', 'r', '"', '\\', '"', '\n']) == [true]
  {
    var rest := ['\\', '"'] + "\n";
    ByteRawIsStr(rest);
    EscapedAtEnd(Some('"'));
    assert "b" + ("r" + Repeat('#', 0) + "\"" + rest) == ['b', 'r', '"', '\\', '"', '\n'];
  }

  lemma RawText(hashes: nat, text: string, t: string)
    ensures var open, close := "r" + Repeat('#', hashes) + "\"", "\"" + Repeat('#', hashes);
            && Render(RawLiteral(hashes, text)) == open + text + close
            && Render(RawLiteral(hashes, text)) + t == open + (text + ("\"" + (Repeat('#', hashes) + t)))
  {
    var open, close := "r" + Repeat('#', hashes) + "\"", "\"" + Repeat('#', hashes);
    assert Render(RawLiteral(hashes, text)) == open + text + close;
    Regroup(open, text, close, t);
    Associative("\"", Repeat('#', hashes), t);
  }

  lemma {:induction false} RawLiteralScan(prev: Option<char>, hashes: nat, text: string, t: string) returns (last: Option<char>)
    requires TokenOk(RawLiteral(hashes, text)) && (prev.Some? ==> !IsWord(prev.value))
    ensures Scan(Code, prev, Render(RawLiteral(hashes, text)) + t)
         == Marks(Render(RawLiteral(hashes, text)), true) + Scan(Code, last, t)
  {
    RawText(hashes, text, t);
    OpenRaw(prev, hashes, text + ("\"" + (Repeat('#', hashes) + t)));
    last := RawScan(Some('"'), hashes, text, t);
    RawMarks(hashes, text);
  }

  lemma RawMarks(hashes: nat, text: string)
    ensures Marks(Render(RawLiteral(hashes, text)), true) == Marks(text, true)
  {
    RawText(hashes, text, "");
    Enclosed("r" + Repeat('#', hashes) + "\"", text, "\"" + Repeat('#', hashes));
  }

  /** A comment, with comments nested in it to any depth, ends where it closes. */
  lemma CommentScan(prev: Option<char>, body: Body, t: string)
    requires TokenOk(Comment(body))
    ensures Scan(Code, prev, Render(Comment(body)) + t) == Marks(Render(Comment(body)), true) + Scan(Code, Some('/'), t)
  {
    var inner, close := RenderBody(body), "*/" + t;
    Regroup("/*", inner, "*/", t);
    OpenComment(prev, inner + close);
    CommentInside(body, t);
    Enclosed("/*", inner, "*/");
  }

  lemma CommentInside(body: Body, t: string)
    requires BodyOk(body)
    ensures Scan(BlockComment(1), Some('*'), RenderBody(body) + ("*/" + t))
         == Marks(RenderBody(body), true) + Scan(Code, Some('/'), t)
  {
    var mid := BodyScan(Some('*'), 1, body, "*/" + t);
    CloseComment(mid, t);
  }

  lemma OpenComment(prev: Option<char>, t: string)
    ensures Scan(Code, prev, "/*" + t) == Scan(BlockComment(1), Some('*'), t)
  {
    Taken(Code, prev, "/*", BlockComment(1), t);
  }

  lemma CloseComment(prev: Option<char>, t: string)
    ensures Scan(BlockComment(1), prev, "*/" + t) == Scan(Code, Some('/'), t)
  {
    Taken(BlockComment(1), prev, "*/", Code, t);
  }

  // ---- The lexer is right ------------------------------------------------------------------

  lemma {:induction false} TokensScan(prev: Option<char>, toks: seq<Spaced>)
    requires TokensOk(toks, false) && (prev.Some? ==> !IsWord(prev.value))
    ensures Scan(Code, prev, RenderAll(toks)) == MarksOf(toks)
    decreases |toks|, 1
  {
    if toks != [] {
      var tok, sep, rest := toks[0].tok, toks[0].sep, RenderAll(toks[1..]);
      Associative(Render(tok), [sep], rest);
      if tok.EscapedQuote? {
        EscapedQuoteFirst(prev, sep, toks[1..]);
      } else {
        SpacedScan(prev, tok, sep, rest);
        TokensScan(After(sep), toks[1..]);
      }
    }
  }

  lemma {:induction false} EscapedQuoteFirst(prev: Option<char>, sep: char, toks: seq<Spaced>)
    requires (sep == ' ' || sep == '\n') && TokensOk(toks, sep == ' ')
    ensures Scan(Code, prev, Render(EscapedQuote) + ([sep] + RenderAll(toks)))
         == Marks(Render(EscapedQuote), false) + Marks([sep], false) + MarksOf(toks)
    decreases |toks|, 4
  {
    ClosingScan(Some('\''), sep, toks);
    EscapedQuoteThen(prev, [sep] + RenderAll(toks), Marks([sep], false) + MarksOf(toks));
    Associative(Marks(Render(EscapedQuote), false), Marks([sep], false), MarksOf(toks));
  }

  lemma {:induction false} EscapedQuoteThen(prev: Option<char>, t: string, marks: seq<bool>)
    requires Scan(Code, Some('\''), "'" + t) == marks
    ensures Scan(Code, prev, Render(EscapedQuote) + t) == Marks(Render(EscapedQuote), false) + marks
  {
    EscapedQuoteOpens(prev, t);
    NoMarks(Render(EscapedQuote), false);
  }

  /** The lexer takes the first three characters of `'\''` at once, and is left with an apostrophe. */
  lemma EscapedQuoteOpens(prev: Option<char>, t: string)
    ensures Scan(Code, prev, Render(EscapedQuote) + t) == Scan(Code, Some('\''), "'" + t)
  {
    var opening: string := ['\'', '\\', '\''];
    var line := FirstLine("'" + t);
    FirstLineOf("'", t);
    assert Render(EscapedQuote) + t == opening + ("'" + t);
    assert (opening + line)[2..] == "" + ("'" + line);
    FirstQuote("", line);
    Taken(Code, prev, opening, Code, "'" + t);
  }

  /** A stray apostrophe, the separator after it, and the tokens that follow. */
  lemma ClosingScan(prev: Option<char>, sep: char, toks: seq<Spaced>)
    requires (sep == ' ' || sep == '\n') && TokensOk(toks, sep == ' ')
    ensures Scan(Code, prev, "'" + ([sep] + RenderAll(toks))) == Marks([sep], false) + MarksOf(toks)
    decreases |toks|, 3
  {
    if sep == ' ' {
      StrayScan(prev, toks);
      ClosingSpace(RenderAll(toks));
      NoMarks([sep], false);
    } else {
      ClosingNewline(prev, RenderAll(toks));
      TokensScan(None, toks);
    }
  }

  lemma ClosingSpace(rest: string)
    ensures "'" + ([' '] + rest) == "' " + rest
  {
  }

  lemma ClosingNewline(prev: Option<char>, rest: string)
    ensures Scan(Code, prev, "'" + (['\n'] + rest)) == Marks(['\n'], false) + Scan(Code, None, rest)
  {
    LoneApostrophe(prev, ['\n'] + rest);
    SepScan(Some('\''), '\n', rest);
  }

  /** An apostrophe with no other one two characters on, and no backslash after it, is passed over. */
  lemma LoneApostrophe(prev: Option<char>, t: string)
    requires t != "" && t[0] != '\\' && (t[0] != '\n' ==> |t| > 1 ==> t[1] != '\'')
    ensures Scan(Code, prev, "'" + t) == Scan(Code, Some('\''), t)
  {
    var text := "'" + t;
    FirstLineIs(text);
    var r := FirstLine(text);
    assert text[1] == t[0] && (|t| > 1 ==> text[2] == t[1]);
    assert |r| > 1 ==> r[1] == text[1];
    assert |r| > 2 ==> r[2] == text[2];
    OneChar(Code, prev, '\'', t);
    NoMarks("'", false);
  }

  /** Tokens one space after a stray apostrophe, which takes the first apostrophe among them for its own. */
  lemma StrayScan(prev: Option<char>, toks: seq<Spaced>)
    requires TokensOk(toks, true)
    ensures Scan(Code, prev, "' " + RenderAll(toks)) == MarksOf(toks)
    decreases |toks|, 2
  {
    if toks == [] || !Quoted(toks[0].tok) {
      NoApostropheFirst(toks);
      StrayAlone(prev, RenderAll(toks));
      TokensScan(Some(' '), toks);
    } else {
      var tok, sep, rest := toks[0].tok, toks[0].sep, RenderAll(toks[1..]);
      Associative(Render(tok), [sep], rest);
      Swallowed(prev, tok, [sep] + rest);
      SwallowedScan(tok, sep, toks[1..]);
    }
  }

  /** A quoted token without its first apostrophe. */
  function Inner(tok: Token): string
    requires Quoted(tok)
  {
    match tok
    case Lifetime(name) => name
    case CharLiteral(c) => [c, '\'']
    case EscapedChar(c, more) => ['\\', c] + more + "'"
    case EscapedQuote => ['\\', '\'', '\'']
  }

  lemma Swallowed(prev: Option<char>, tok: Token, t: string)
    requires Quoted(tok)
    ensures Scan(Code, prev, "' " + (Render(tok) + t)) == Scan(Code, Some('\''), Inner(tok) + t)
  {
    OpensWithApostrophe(tok);
    assert "' " + ("'" + Inner(tok) + t) == ['\'', ' ', '\''] + (Inner(tok) + t);
    SwallowedApostrophe(prev, Inner(tok) + t);
  }

  lemma OpensWithApostrophe(tok: Token)
    requires Quoted(tok)
    ensures Render(tok) == "'" + Inner(tok)
  {
  }

  /** A token whose first apostrophe was taken, and the tokens after it. */
  lemma SwallowedScan(tok: Token, sep: char, toks: seq<Spaced>)
    requires TokenOk(tok) && Quoted(tok) && Harmless(tok) && (sep == ' ' || sep == '\n')
    requires TokensOk(toks, sep == ' ' && EndsStray(tok, true))
    ensures Scan(Code, Some('\''), Inner(tok) + ([sep] + RenderAll(toks)))
         == Marks(Render(tok), false) + Marks([sep], false) + MarksOf(toks)
    decreases |toks|, 4
  {
    QuotedMarks(tok);
    if tok.Lifetime? {
      NameAfterSwallow(tok.name, sep, RenderAll(toks));
      TokensScan(After(sep), toks);
    } else {
      var last := LiteralAfterSwallow(tok, sep, RenderAll(toks));
      ClosingScan(last, sep, toks);
    }
  }

  lemma NameAfterSwallow(name: string, sep: char, rest: string)
    requires IsPlain(name) && (sep == ' ' || sep == '\n')
    ensures Scan(Code, Some('\''), name + ([sep] + rest))
         == Marks(name, false) + Marks([sep], false) + Scan(Code, After(sep), rest)
  {
    var last := PlainScan(Some('\''), name, [sep] + rest);
    SepScan(last, sep, rest);
    Associative(Marks(name, false), Marks([sep], false), Scan(Code, After(sep), rest));
  }

  lemma LiteralAfterSwallow(tok: Token, sep: char, rest: string) returns (last: Option<char>)
    requires TokenOk(tok) && Quoted(tok) && !tok.Lifetime? && Harmless(tok) && (sep == ' ' || sep == '\n')
    ensures Scan(Code, Some('\''), Inner(tok) + ([sep] + rest)) == Scan(Code, last, "'" + ([sep] + rest))
  {
    match tok
    case CharLiteral(c) =>
      last := Some(c);
      CharAfterSwallow(c, [sep] + rest);
    case EscapedChar(c, more) => last := EscapeAfterSwallow(c, more, [sep] + rest);
    case EscapedQuote =>
      last := Some('\'');
      QuoteAfterSwallow(sep, rest);
  }

  lemma QuotedMarks(tok: Token)
    requires TokenOk(tok) && Quoted(tok)
    ensures Marks(Render(tok), false) == if tok.Lifetime? then Marks(tok.name, false) else []
  {
    if tok.Lifetime? {
      MarksAppend("'", tok.name, false);
      NoMarks("'", false);
    } else {
      NoMarks(Render(tok), false);
    }
  }

  lemma StrayAlone(prev: Option<char>, rest: string)
    requires rest != "" ==> rest[0] != '\''
    ensures Scan(Code, prev, "' " + rest) == Scan(Code, Some(' '), rest)
  {
    ClosingSpace(rest);
    LoneApostrophe(prev, [' '] + rest);
    SepScan(Some('\''), ' ', rest);
    NoMarks([' '], false);
  }

  lemma NoApostropheFirst(toks: seq<Spaced>)
    requires TokensOk(toks, true) && (toks == [] || !Quoted(toks[0].tok))
    ensures TokensOk(toks, false) && (RenderAll(toks) != "" ==> RenderAll(toks)[0] != '\'')
  {
    if toks != [] {
      var s := Render(toks[0].tok);
      if s != "" {
        assert RenderAll(toks)[0] == s[0];
        assert toks[0].tok.Plain? ==> s[0] in s;
      } else {
        assert RenderAll(toks)[0] == toks[0].sep;
      }
    }
  }

  lemma CharAfterSwallow(c: char, t: string)
    requires TokenOk(CharLiteral(c)) && c != '"'
    ensures Scan(Code, Some('\''), [c, '\''] + t) == Scan(Code, Some(c), "'" + t)
  {
    assert [c, '\''] + t == [c] + ("'" + t);
    FirstLineOf([c, '\''], t);
    var r := [c, '\''] + FirstLine(t);
    assert r[1..][0] == '\'';
    OneChar(Code, Some('\''), c, "'" + t);
    NoMarks([c], false);
  }

  lemma EscapeAfterSwallow(c: char, more: string, t: string) returns (last: Option<char>)
    requires TokenOk(EscapedChar(c, more)) && IsPlain([c] + more)
    ensures Scan(Code, Some('\''), Inner(EscapedChar(c, more)) + t) == Scan(Code, last, "'" + t)
  {
    var s := ['\\', c] + more;
    assert s == ['\\'] + ([c] + more);
    assert Inner(EscapedChar(c, more)) + t == s + ("'" + t);
    last := PlainScan(Some('\''), s, "'" + t);
    NoMarks(s, false);
  }

  lemma QuoteAfterSwallow(sep: char, rest: string)
    requires sep == ' ' || sep == '\n'
    ensures Scan(Code, Some('\''), ['\\', '\'', '\''] + ([sep] + rest)) == Scan(Code, Some('\''), "'" + ([sep] + rest))
  {
    var t := [sep] + rest;
    var two := "'" + t;
    assert ['\\', '\'', '\''] + t == ['\\'] + ("'" + two);
    BackslashScan(Some('\''), "'" + two);
    assert two[1] == sep;
    LoneApostrophe(Some('\\'), two);
  }

  lemma BackslashScan(prev: Option<char>, t: string)
    ensures Scan(Code, prev, ['\\'] + t) == Scan(Code, Some('\\'), t)
  {
    OneChar(Code, prev, '\\', t);
    NoMarks(['\\'], false);
  }

  lemma SpacedScan(prev: Option<char>, tok: Token, sep: char, t: string)
    requires TokenOk(tok) && (prev.Some? ==> !IsWord(prev.value))
    requires (sep == ' ' || sep == '\n') && (tok.LineComment? ==> sep == '\n')
    requires tok.EscapedQuote? && sep == ' ' ==> !("'" <= t)
    ensures Scan(Code, prev, Render(tok) + ([sep] + t))
         == Marks(Render(tok), tok.StrLiteral? || tok.RawLiteral? || tok.Comment?) + Marks([sep], false)
            + Scan(Code, After(sep), t)
  {
    assert ([sep] + t)[1..] == t;
    var last := TokenScan(prev, tok, [sep] + t);
    SepScan(last, sep, t);
    var marks := Marks(Render(tok), tok.StrLiteral? || tok.RawLiteral? || tok.Comment?);
    Joined(Scan(Code, prev, Render(tok) + ([sep] + t)), marks, Scan(Code, last, [sep] + t),
           Marks([sep], false), Scan(Code, After(sep), t), marks + Marks([sep], false));
  }

  lemma SepScan(prev: Option<char>, sep: char, t: string)
    requires sep == ' ' || sep == '\n'
    ensures Scan(Code, prev, [sep] + t) == Marks([sep], false) + Scan(Code, After(sep), t)
  {
    OneChar(Code, prev, sep, t);
  }

  /**
   In a text of well-formed tokens, a line is marked exactly when the newline before it
   belongs to a string literal or a block comment.
   */
  lemma MarksExactlyInsideLines(toks: seq<Spaced>)
    requires TokensOk(toks, false)
    ensures var lines := Lines(RenderAll(toks));
            |lines| <= 1 + |MarksOf(toks)| && Flags(Code, lines) == ([false] + MarksOf(toks))[..|lines|]
  {
    FlagsFromScan(Code, RenderAll(toks));
    TokensScan(None, toks);
  }

  /**
   Why a quote may not come in a literal one space after `'\''`: the lexer takes `' '` for the next
   literal and the quote after it for a string's, so the next line counts as inside one
   although no literal crosses the newline.
   */
  lemma MisreadQuote()
    ensures TokenOk(EscapedQuote) && TokenOk(CharLiteral('"'))
    ensures Scan(Code, None, Render(EscapedQuote) + " " + Render(CharLiteral('"')) + "\n") == [true]
  {
    var line: string := ['"', '\'', '\n'];
    MisreadText(line);
    EscapedQuoteOpens(None, " '" + line);
    SwallowedApostrophe(Some('\''), line);
    MisreadLine();
  }

  lemma MisreadText(line: string)
    requires line == ['"', '\'', '\n']
    ensures Render(EscapedQuote) + " " + Render(CharLiteral('"')) + "\n" == Render(EscapedQuote) + (" '" + line)
    ensures "'" + (" '" + line) == ['\'', ' ', '\''] + line
  {
  }

  lemma MisreadLine()
    ensures Scan(Code, Some('\''), ['"', '\'', '\n']) == [true]
  {
    OpenString(Some('\''), "'" + "\n");
    ApostropheInString(Some('"'), "\n");
    NewlineAlone(Str, Some('\''));
    assert ['"', '\'', '\n'] == "\"" + ("'" + "\n");
  }

  lemma ApostropheInString(prev: Option<char>, t: string)
    ensures Scan(Str, prev, "'" + t) == Scan(Str, Some('\''), t)
  {
    Taken(Str, prev, "'", Str, t);
  }

  lemma NewlineAlone(st: State, prev: Option<char>)
    ensures Scan(st, prev, "\n") == [st != Code]
  {
    assert "\n"[1..] == "";
  }

  /** A stray apostrophe takes the one a space after it for its closing one. */
  lemma SwallowedApostrophe(prev: Option<char>, t: string)
    ensures Scan(Code, prev, ['\'', ' ', '\''] + t) == Scan(Code, Some('\''), t)
  {
    Taken(Code, prev, ['\'', ' ', '\''], Code, t);
  }

  /** And a quote after that, which a character literal holds, opens a string. */
  lemma {:induction false} QuoteOpensString(prev: Option<char>, t: string)
    ensures Scan(Code, prev, "' " + Render(CharLiteral('"')) + t) == Scan(Str, Some('"'), "'" + t)
  {
    QuoteText(t);
    SwallowedApostrophe(prev, "\"" + ("'" + t));
    OpenString(Some('\''), "'" + t);
  }

  lemma QuoteText(t: string)
    ensures "' " + Render(CharLiteral('"')) + t == ['\'', ' ', '\''] + ("\"" + ("'" + t))
  {
  }
}
