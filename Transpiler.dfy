/**
 * `CppTranspiler.transpile` (src/core/CppTranspiler.js): a C++ subset is
 * turned into JavaScript that reports to the tracer, by a fixed sequence of
 * global regular-expression replacements followed by a per-line pass.
 *
 * Each replacement is a `Rule`. `MatchAt` says what the rule's pattern
 * matches at the start of the remaining text, following the pattern's own
 * greedy and lazy quantifiers and their backtracking; `Rewrite` is the
 * global replace: it scans left to right, replaces each match and goes on
 * after it, and keeps every other character.
 */
module Transpiler {
  import opened Wrappers
  import opened Values
  import opened Text

  /** A match at the current position: how many characters it covers and what replaces them. */
  datatype Hit = Hit(len: nat, out: string)

  datatype Rule =
    | Include        // `#include`, spaces, then `<` up to the nearest `>` on the line; removed
    | UsingStd       // `using namespace std;` with any spacing; removed
    | Cout           // `cout <<` up to the nearest `;` on the line; becomes a `tracer.log` call
    | Header         // a function header up to its `{`; becomes an async function that calls the tracer
    | Return         // `return` up to the nearest `;` on the line; also reports the value to the tracer
    | VectorType     // `vector<...>` up to the nearest `>` on the line; becomes `let`
    | TypeWord       // a whole word int, void, string, bool or double; becomes `let`
    | Endl           // `<<`, spaces, `endl`; removed from a `cout` message
    | Literal(pattern: string, replacement: string)

  // ---------------------------------------------------------------
  // The matchers, one per pattern
  // ---------------------------------------------------------------

  function MatchLiteral(p: string, r: string, t: string): (h: Option<Hit>)
    ensures h.Some? <==> |p| > 0 && StartsWith(t, p)
    ensures h.Some? ==> h.value == Hit(|p|, r)
  {
    if |p| > 0 && StartsWith(t, p) then Some(Hit(|p|, r)) else None
  }

  /** `#include`, at least one space, `<`, and the shortest run up to `>` that stays on the line. */
  function MatchInclude(t: string): (h: Option<Hit>)
    ensures h.Some? <==> (StartsWith(t, "#include") && 0 < SpanSpaces(t[8..]) < |t| - 8 &&
      t[8 + SpanSpaces(t[8..])] == '<' && LazyTo(t[9 + SpanSpaces(t[8..])..], '>').Some?)
    ensures h.Some? ==> StartsWith(t, "#include") && 10 <= h.value.len <= |t| && h.value.out == ""
    ensures h.Some? ==> t[h.value.len - 1] == '>'
  {
    if !StartsWith(t, "#include") then None
    else
      var u := t[8..];
      var n := SpanSpaces(u);
      if n == 0 || n == |u| || u[n] != '<' then None
      else match LazyTo(u[n + 1..], '>')
        case None => None
        case Some(k) =>
          assert u[n + 1..][k] == t[8 + n + 1 + k];
          Some(Hit(8 + n + 1 + k + 1, ""))
  }

  /** `using`, spaces, `namespace`, spaces, `std;`. */
  function MatchUsing(t: string): (h: Option<Hit>)
    ensures h.Some? <==> (StartsWith(t, "using") && 0 < SpanSpaces(t[5..]) &&
      StartsWith(t[5 + SpanSpaces(t[5..])..], "namespace") &&
      0 < SpanSpaces(t[14 + SpanSpaces(t[5..])..]) &&
      StartsWith(t[14 + SpanSpaces(t[5..]) + SpanSpaces(t[14 + SpanSpaces(t[5..])..])..], "std;"))
    ensures h.Some? ==> StartsWith(t, "using") && 20 <= h.value.len <= |t| && h.value.out == ""
  {
    if !StartsWith(t, "using") then None
    else
      var u := t[5..];
      var n := SpanSpaces(u);
      var v := u[n..];
      if n == 0 || !StartsWith(v, "namespace") then None
      else
        var w := v[9..];
        var m := SpanSpaces(w);
        if m == 0 || !StartsWith(w[m..], "std;") then None
        else Some(Hit(5 + n + 9 + m + 4, ""))
  }

  /**
   * The message of a `cout` statement: every `<< endl` removed, trimmed,
   * and each remaining `<<` turned into `+`.
   */
  function LogMessage(content: string): string
    decreases |content|, 3
  {
    Rewrite(Literal("<<", "+"), None, Trim(Rewrite(Endl, None, content)))
  }

  /**
   * Where a `cout` statement's message starts: after `cout`, spaces, `<<`
   * and the spaces that follow, which the message therefore never begins with.
   */
  function CoutOpening(t: string): (a: Option<nat>)
    ensures a.Some? ==> StartsWith(t, "cout") && 6 <= a.value <= |t|
    ensures a.Some? && a.value < |t| ==> !IsSpace(t[a.value])
    ensures !StartsWith(t, "cout") ==> a.None?
  {
    if !StartsWith(t, "cout") then None
    else
      var u := t[4..];
      var n1 := SpanSpaces(u);
      var v := u[n1..];
      if !StartsWith(v, "<<") then None
      else
        var w := v[2..];
        var n2 := SpanSpaces(w);
        assert 4 + n1 + 2 + n2 < |t| ==> t[4 + n1 + 2 + n2] == w[n2];
        Some(4 + n1 + 2 + n2)
  }

  /**
   * The group `(.*?)` of a `cout` statement: the shortest run after the
   * opening that reaches a `;` on the same line, without that `;`.
   */
  function CoutText(t: string): (m: Option<string>)
    ensures m.Some? <==> CoutOpening(t).Some? && LazyTo(t[CoutOpening(t).value..], ';').Some?
    ensures m.Some? ==>
      var a := CoutOpening(t).value;
      a + |m.value| < |t| && m.value == t[a..a + |m.value|] && t[a + |m.value|] == ';' &&
      ';' !in m.value && (forall j :: 0 <= j < |m.value| ==> !IsLineTerm(m.value[j]))
  {
    match CoutOpening(t)
      case None => None
      case Some(a) =>
        var x := t[a..];
        match LazyTo(x, ';')
          case None => None
          case Some(k) =>
            assert forall j :: 0 <= j < k ==> t[a..a + k][j] == x[j];
            Some(t[a..a + k])
  }

  /**
   * `cout`, spaces, `<<`, spaces, and the shortest run up to `;` on the line:
   * the whole statement, up to and including that `;`, becomes a
   * `tracer.log` call with the `LogMessage` of its text.
   */
  function MatchCout(t: string): (h: Option<Hit>)
    ensures h.Some? <==> CoutText(t).Some?
    ensures h.Some? ==>
      StartsWith(t, "cout") && 7 <= h.value.len <= |t| && t[h.value.len - 1] == ';' &&
      h.value.len == CoutOpening(t).value + |CoutText(t).value| + 1 &&
      h.value.out == "tracer.log(" + LogMessage(CoutText(t).value) + ", 0);"
    decreases |t|, 0
  {
    match CoutText(t)
      case None => None
      case Some(m) => Some(Hit(CoutOpening(t).value + |m| + 1, "tracer.log(" + LogMessage(m) + ", 0);"))
  }

  /** `<<`, spaces, `endl`. */
  function MatchEndl(t: string): (h: Option<Hit>)
    ensures h.Some? <==> StartsWith(t, "<<") && StartsWith(t[2 + SpanSpaces(t[2..])..], "endl")
    ensures h.Some? ==> StartsWith(t, "<<") && h.value == Hit(2 + SpanSpaces(t[2..]) + 4, "")
    ensures h.Some? ==> 6 <= h.value.len <= |t|
  {
    if !StartsWith(t, "<<") then None
    else
      var n := SpanSpaces(t[2..]);
      if StartsWith(t[2 + n..], "endl") then Some(Hit(2 + n + 4, "")) else None
  }

  /** The value a `return` reports: the trimmed expression, or `undefined` when there is none. */
  function ReturnValue(content: string): (v: string)
    ensures v != ""
    ensures Trim(content) != "" ==> v == Trim(content)
    ensures Trim(content) == "" ==> v == "undefined"
  {
    var v := Trim(content);
    if v == "" then "undefined" else v
  }

  /**
   * The group `(.*?)` of a `return` statement: after `return` and the spaces
   * that follow, the shortest run that reaches a `;` on the same line,
   * without that `;`.
   */
  function ReturnArg(t: string): (e: Option<string>)
    ensures e.Some? <==> StartsWith(t, "return") && LazyTo(t[6 + SpanSpaces(t[6..])..], ';').Some?
    ensures e.Some? ==> |e.value| == LazyTo(t[6 + SpanSpaces(t[6..])..], ';').value
    ensures e.Some? ==>
      var a := 6 + SpanSpaces(t[6..]);
      a + |e.value| < |t| && e.value == t[a..a + |e.value|] && t[a + |e.value|] == ';' &&
      ';' !in e.value && OneLine(e.value)
  {
    if !StartsWith(t, "return") then None
    else
      var a := 6 + SpanSpaces(t[6..]);
      var x := t[a..];
      match LazyTo(x, ';')
        case None => None
        case Some(k) =>
          LazyToRun(x, ';');
          assert x[..k] == t[a..a + k];
          Some(t[a..a + k])
  }

  /**
   * `return`, spaces, and the shortest run up to `;` on the line: the whole
   * statement reports the `ReturnValue` of that run to the tracer and then
   * returns it.
   */
  function MatchReturn(t: string): (h: Option<Hit>)
    ensures h.Some? <==> ReturnArg(t).Some?
    ensures h.Some? ==>
      var v := ReturnValue(ReturnArg(t).value);
      StartsWith(t, "return") && 7 <= h.value.len <= |t| && t[h.value.len - 1] == ';' &&
      h.value.len == 6 + SpanSpaces(t[6..]) + |ReturnArg(t).value| + 1 &&
      h.value.out == "tracer.return(" + v + ", 0); return " + v + ";"
  {
    match ReturnArg(t)
      case None => None
      case Some(e) =>
        var v := ReturnValue(e);
        Some(Hit(6 + SpanSpaces(t[6..]) + |e| + 1, "tracer.return(" + v + ", 0); return " + v + ";"))
  }

  /** `vector`, spaces, `<`, and the shortest run up to `>` on the line. */
  function MatchVectorType(t: string): (h: Option<Hit>)
    ensures h.Some? <==> (StartsWith(t, "vector") && SpanSpaces(t[6..]) < |t| - 6 &&
      t[6 + SpanSpaces(t[6..])] == '<' && LazyTo(t[7 + SpanSpaces(t[6..])..], '>').Some?)
    ensures h.Some? ==> StartsWith(t, "vector") && 8 <= h.value.len <= |t| && h.value.out == "let"
    ensures h.Some? ==> t[h.value.len - 1] == '>'
  {
    if !StartsWith(t, "vector") then None
    else
      var u := t[6..];
      var n := SpanSpaces(u);
      if n == |u| || u[n] != '<' then None
      else match LazyTo(u[n + 1..], '>')
        case None => None
        case Some(k) =>
          assert u[n + 1..][k] == t[6 + n + 1 + k];
          Some(Hit(6 + n + 1 + k + 1, "let"))
  }

  const TypeWords: seq<string> := ["int", "void", "string", "bool", "double"]

  /** `w` stands at the start of `t` as a whole word: no word character follows it. */
  predicate WholeWordAt(t: string, w: string)
  {
    StartsWith(t, w) && (|t| == |w| || !IsWordChar(t[|w|]))
  }

  /** One of the type words stands at the start of `t` as a whole word. */
  predicate TypeWordAt(t: string)
  {
    WholeWordAt(t, "int") || WholeWordAt(t, "void") || WholeWordAt(t, "string") ||
    WholeWordAt(t, "bool") || WholeWordAt(t, "double")
  }

  /**
   * One of the type words as a whole word: a word boundary before it (the
   * previous character is not a word character) and after it.
   */
  function MatchTypeWord(prev: Option<char>, t: string): (h: Option<Hit>)
    ensures h.Some? <==> (prev.None? || !IsWordChar(prev.value)) && TypeWordAt(t)
    ensures h.Some? ==> (3 <= h.value.len <= |t| && h.value.out == "let" &&
      t[..h.value.len] in TypeWords)
  {
    if prev.Some? && IsWordChar(prev.value) then None
    else if WholeWordAt(t, "int") then Some(Hit(3, "let"))
    else if WholeWordAt(t, "void") then Some(Hit(4, "let"))
    else if WholeWordAt(t, "string") then Some(Hit(6, "let"))
    else if WholeWordAt(t, "bool") then Some(Hit(4, "let"))
    else if WholeWordAt(t, "double") then Some(Hit(6, "let"))
    else None
  }

  // ---------------------------------------------------------------
  // Function headers
  // ---------------------------------------------------------------

  /** What a header match found after its return type: its length, the function name and the raw argument text. */
  datatype HeaderParts = HeaderParts(len: nat, name: string, argsRaw: string)

  /**
   * Where the lazy argument run stops: the first `)` on the line, at or
   * after `k`, that spaces and then `{` follow. Gives the `)` position and
   * the length up to and including the `{`.
   */
  function ArgsClose(a: string, k: nat): (r: Option<(nat, nat)>)
    requires k <= |a|
    ensures r.Some? ==> k <= r.value.0 < r.value.1 <= |a| && a[r.value.0] == ')' && a[r.value.1 - 1] == '{'
    decreases |a| - k
  {
    if k == |a| || IsLineTerm(a[k]) then None
    else if a[k] == ')' && SpanSpaces(a[k + 1..]) < |a[k + 1..]| && a[k + 1..][SpanSpaces(a[k + 1..])] == '{' then
      Some((k, k + 1 + SpanSpaces(a[k + 1..]) + 1))
    else ArgsClose(a, k + 1)
  }

  /** After the return type: spaces, the name (word characters), spaces, `(`, the arguments, `)`, spaces, `{`. */
  function HeaderTail(t: string): (r: Option<HeaderParts>)
    ensures r.Some? ==> (4 <= r.value.len <= |t| && |r.value.name| > 0 &&
      forall i :: 0 <= i < |r.value.name| ==> IsWordChar(r.value.name[i]))
  {
    var n1 := SpanSpaces(t);
    if n1 == 0 then None
    else
      var u := t[n1..];
      var w := SpanWord(u);
      if w == 0 then None
      else
        var v := u[w..];
        var n2 := SpanSpaces(v);
        if n2 == |v| || v[n2] != '(' then None
        else
          var a := v[n2 + 1..];
          match ArgsClose(a, 0)
            case None => None
            case Some((k, m)) => Some(HeaderParts(n1 + w + n2 + 1 + m, u[..w], a[..k]))
  }

  /** The `vector<...>` return type: the lazy run tries each `>` on the line in turn until the rest of the header matches. */
  function VectorHeader(t: string, k: nat): (r: Option<HeaderParts>)
    requires k <= |t|
    ensures r.Some? ==> (k < r.value.len <= |t| && |r.value.name| > 0 &&
      forall i :: 0 <= i < |r.value.name| ==> IsWordChar(r.value.name[i]))
    decreases |t| - k
  {
    if k == |t| || IsLineTerm(t[k]) then None
    else if t[k] == '>' && HeaderTail(t[k + 1..]).Some? then
      var p := HeaderTail(t[k + 1..]).value;
      Some(p.(len := k + 1 + p.len))
    else VectorHeader(t, k + 1)
  }

  /** The return types in the order they are tried: void, int, string, bool, then vector. */
  function HeaderAt(t: string): (r: Option<HeaderParts>)
    ensures r.Some? ==> (7 <= r.value.len <= |t| && |r.value.name| > 0 &&
      forall i :: 0 <= i < |r.value.name| ==> IsWordChar(r.value.name[i]))
  {
    if StartsWith(t, "void") && HeaderTail(t[4..]).Some? then
      var p := HeaderTail(t[4..]).value; Some(p.(len := 4 + p.len))
    else if StartsWith(t, "int") && HeaderTail(t[3..]).Some? then
      var p := HeaderTail(t[3..]).value; Some(p.(len := 3 + p.len))
    else if StartsWith(t, "string") && HeaderTail(t[6..]).Some? then
      var p := HeaderTail(t[6..]).value; Some(p.(len := 6 + p.len))
    else if StartsWith(t, "bool") && HeaderTail(t[4..]).Some? then
      var p := HeaderTail(t[4..]).value; Some(p.(len := 4 + p.len))
    else if StartsWith(t, "vector") then
      var n := SpanSpaces(t[6..]);
      if 6 + n < |t| && t[6 + n] == '<' then VectorHeader(t, 6 + n + 1) else None
    else None
  }

  /** The last name in an argument: the part after its last space or `&`. */
  function LastWord(s: string): (w: string)
    ensures |w| <= |s| && w == s[|s| - |w|..]
    ensures forall i :: 0 <= i < |w| ==> !IsSpace(w[i]) && w[i] != '&'
    ensures |w| < |s| ==> IsSpace(s[|s| - |w| - 1]) || s[|s| - |w| - 1] == '&'
  {
    if |s| == 0 || IsSpace(s[|s| - 1]) || s[|s| - 1] == '&' then ""
    else LastWord(s[..|s| - 1]) + [s[|s| - 1]]
  }

  /** The parameter name of one comma-separated argument, or "" for a blank one. */
  function ArgName(arg: string): string
  {
    var a := Trim(arg);
    if a == "" then "" else LastWord(a)
  }

  /** A parameter name as the header pass keeps it: not empty, no space and no `&`. */
  predicate IsName(s: string)
  {
    s != "" && forall j :: 0 <= j < |s| ==> !IsSpace(s[j]) && s[j] != '&'
  }

  /** The argument names: each piece between commas mapped to its name, then the blank ones filtered out. */
  function ArgNames(pieces: seq<string>): (names: seq<string>)
    ensures |names| <= |pieces|
  {
    DropBlank(MapArgName(pieces))
  }

  /** `map(arg => ...)`: the name of each piece, blanks included. */
  function MapArgName(pieces: seq<string>): (xs: seq<string>)
    ensures |xs| == |pieces|
    ensures forall i :: 0 <= i < |pieces| ==> xs[i] == ArgName(pieces[i])
  {
    seq(|pieces|, i requires 0 <= i < |pieces| => ArgName(pieces[i]))
  }

  /** `filter(x => x)` on strings: the empty ones dropped, the rest kept in order. */
  function DropBlank(xs: seq<string>): (ys: seq<string>)
    ensures |ys| <= |xs|
  {
    if |xs| == 0 then [] else (if xs[0] == "" then [] else [xs[0]]) + DropBlank(xs[1..])
  }

  /** The filter keeps exactly the non-empty strings: each kept one is one of the inputs. */
  lemma {:induction false} DropBlankKept(xs: seq<string>)
    ensures forall y :: y in DropBlank(xs) <==> y in xs && y != ""
    decreases |xs|
  {
    if |xs| > 0 {
      DropBlankKept(xs[1..]);
      assert xs == [xs[0]] + xs[1..];
    }
  }

  /** With no blank string in the list the filter keeps all of it. */
  lemma {:induction false} DropBlankNone(xs: seq<string>)
    requires forall i :: 0 <= i < |xs| ==> xs[i] != ""
    ensures DropBlank(xs) == xs
    decreases |xs|
  {
    if |xs| > 0 {
      DropBlankNone(xs[1..]);
      assert xs == [xs[0]] + xs[1..];
    }
  }

  /** A non-empty argument name holds no space and no `&`. */
  lemma ArgNameIsName(arg: string)
    requires ArgName(arg) != ""
    ensures IsName(ArgName(arg))
  {
  }

  /** Every argument name kept is a name: blank pieces are dropped, and no kept name holds a space or `&`. */
  lemma ArgNamesAreNames(pieces: seq<string>)
    ensures forall i :: 0 <= i < |ArgNames(pieces)| ==> IsName(ArgNames(pieces)[i])
  {
    var xs := MapArgName(pieces);
    DropBlankKept(xs);
    forall i | 0 <= i < |ArgNames(pieces)| ensures IsName(ArgNames(pieces)[i]) {
      var y := ArgNames(pieces)[i];
      assert y in DropBlank(xs);
      var k :| 0 <= k < |xs| && xs[k] == y;
      ArgNameIsName(pieces[k]);
    }
  }

  /** `parts.join(', ')`. */
  function JoinArgs(parts: seq<string>): string
  {
    if |parts| == 0 then "" else if |parts| == 1 then parts[0] else parts[0] + ", " + JoinArgs(parts[1..])
  }

  /** The parameter list of the generated function: the argument names, joined by ", ". */
  function CleanArgs(argsRaw: string): string
  {
    JoinArgs(ArgNames(SplitOn(argsRaw, ',')))
  }

  /** Twelve and sixteen spaces: the indentation of the generated header's lines. */
  const Indent12: string := "            "
  const Indent16: string := "                "

  /**
   * The text that replaces a header: four lines (an empty one, the async
   * function's opening line, the statement that opens a tracer frame, and
   * the indentation before the body's first line).
   */
  function HeaderText(name: string, args: string): (out: string)
    requires '\n' !in name && '\n' !in args
    ensures SplitOn(out, '\n') == HeaderLines(name, args)
  {
    var lines := HeaderLines(name, args);
    SplitJoinOn(lines, '\n');
    JoinOn(lines, '\n')
  }

  function HeaderLines(name: string, args: string): (lines: seq<string>)
    requires '\n' !in name && '\n' !in args
    ensures |lines| == 4 && forall i :: 0 <= i < 4 ==> '\n' !in lines[i]
  {
    ["",
     Indent12 + "async function " + name + "(" + args + ") {",
     Indent16 + "const _frameId = tracer.call('" + name + "', { " + args + " }, 0);",
     Indent12]
  }

  /** A function header, replaced by the four lines of `HeaderText` (see `MatchHeaderLines`). */
  function MatchHeader(t: string): (h: Option<Hit>)
    ensures h.Some? <==> HeaderAt(t).Some?
    ensures h.Some? ==> 7 <= h.value.len <= |t| && h.value.len == HeaderAt(t).value.len
  {
    match HeaderAt(t)
      case None => None
      case Some(p) =>
        CleanArgsOneLine(p.argsRaw);
        assert forall j :: 0 <= j < |p.name| ==> p.name[j] != '\n';
        Some(Hit(p.len, HeaderText(p.name, CleanArgs(p.argsRaw))))
  }

  // ---------------------------------------------------------------
  // Global replace
  // ---------------------------------------------------------------

  function MatchAt(rule: Rule, prev: Option<char>, t: string): (h: Option<Hit>)
    ensures h.Some? ==> 1 <= h.value.len <= |t|
    ensures rule == Endl && h.Some? ==> h.value.out == ""
    decreases |t|, 1
  {
    match rule
      case Include => MatchInclude(t)
      case UsingStd => MatchUsing(t)
      case Cout => MatchCout(t)
      case Header => MatchHeader(t)
      case Return => MatchReturn(t)
      case VectorType => MatchVectorType(t)
      case TypeWord => MatchTypeWord(prev, t)
      case Endl => MatchEndl(t)
      case Literal(p, r) => MatchLiteral(p, r, t)
  }

  /**
   * The global replace of `rule` over `t`, where `prev` is the character
   * just before `t` (for word boundaries): a match is replaced and the scan
   * goes on after it; otherwise the character is kept.
   */
  function Rewrite(rule: Rule, prev: Option<char>, t: string): (r: string)
    ensures rule == Endl ==> |r| <= |t|
    decreases |t|, 2
  {
    if |t| == 0 then ""
    else match MatchAt(rule, prev, t)
      case Some(h) => h.out + Rewrite(rule, Some(t[h.len - 1]), t[h.len..])
      case None => [t[0]] + Rewrite(rule, Some(t[0]), t[1..])
  }

  function ReplaceAll(rule: Rule, s: string): string
  {
    Rewrite(rule, None, s)
  }

  // ---------------------------------------------------------------
  // The line pass and the whole transpiler
  // ---------------------------------------------------------------

  /** Whether the line pass leaves a line alone: blank, a comment, a lone brace, or a generated header. */
  predicate SkipsLine(line: string)
  {
    var trimmed := Trim(line);
    trimmed == "" || StartsWith(trimmed, "//") || trimmed == "}" || trimmed == "{" ||
    StartsWith(trimmed, "async function")
  }

  /** The prefix that reports line `n`. */
  function LineMarker(n: nat): string
  {
    "tracer.registerLine(" + NatToString(n) + "); "
  }

  /** One line of the line pass, numbered from 1. */
  function InstrumentLine(line: string, lineNum: nat): (r: string)
    ensures SkipsLine(line) ==> r == line
    ensures !SkipsLine(line) ==> r == LineMarker(lineNum) + line
  {
    if SkipsLine(line) then line else LineMarker(lineNum) + line
  }

  /** The line pass: split at newlines, instrument each line with its 1-based number, join again. */
  function StepLines(code: string): string
  {
    var lines := SplitOn(code, '\n');
    JoinOn(seq(|lines|, i requires 0 <= i < |lines| => InstrumentLine(lines[i], i + 1)), '\n')
  }

  /** The text before the line pass: the ten replacements in order. */
  function ReplacePasses(cppCode: string): (r: string)
    ensures !Occurs(r, ".push_back(") && !Occurs(r, ".pop_back(") && !Occurs(r, ".size()")
  {
    var s := ReplaceAll(Include, cppCode);
    var s := ReplaceAll(UsingStd, s);
    var s := ReplaceAll(Cout, s);
    var s := ReplaceAll(Header, s);
    var s := ReplaceAll(Return, s);
    var s := ReplaceAll(VectorType, s);
    var s := ReplaceAll(TypeWord, s);
    MethodsPassRemoves(s);
    MethodsPass(s)
  }

  /** The three vector-method renamings. */
  function MethodsPass(s: string): string
  {
    var s := ReplaceAll(Literal(".push_back(", ".push("), s);
    var s := ReplaceAll(Literal(".pop_back(", ".pop("), s);
    ReplaceAll(Literal(".size()", ".length"), s)
  }

  /**
   * `transpile(cppCode)`: line `i` of the output is line `i` of the
   * replaced text, instrumented with its number, and there are as many lines.
   */
  function Transpile(cppCode: string): (js: string)
    ensures var inLines := SplitOn(ReplacePasses(cppCode), '\n');
      var outLines := SplitOn(js, '\n');
      |outLines| == |inLines| &&
      forall i :: 0 <= i < |inLines| ==> outLines[i] == InstrumentLine(inLines[i], i + 1)
  {
    StepLinesAligned(ReplacePasses(cppCode));
    StepLines(ReplacePasses(cppCode))
  }

  // ---------------------------------------------------------------
  // Properties
  // ---------------------------------------------------------------

  /** The digits of a line number hold no newline. */
  lemma {:induction false} NatToStringDigits(n: nat)
    ensures forall i :: 0 <= i < |NatToString(n)| ==> '0' <= NatToString(n)[i] <= '9'
  {
    if n >= 10 {
      NatToStringDigits(n / 10);
    }
  }

  /**
   * The line pass keeps the lines aligned: the output has as many lines as
   * its input, and line `i` (from 1) is either the input line unchanged, when
   * it is blank, a comment, a lone brace or a generated header, or that line
   * after a call reporting line number `i`.
   */
  lemma StepLinesAligned(code: string)
    ensures var inLines := SplitOn(code, '\n');
      var outLines := SplitOn(StepLines(code), '\n');
      |outLines| == |inLines| &&
      forall i :: 0 <= i < |inLines| ==>
        (SkipsLine(inLines[i]) ==> outLines[i] == inLines[i]) &&
        (!SkipsLine(inLines[i]) ==> outLines[i] == LineMarker(i + 1) + inLines[i])
  {
    var lines := SplitOn(code, '\n');
    var out := seq(|lines|, i requires 0 <= i < |lines| => InstrumentLine(lines[i], i + 1));
    forall i | 0 <= i < |out| ensures '\n' !in out[i] {
      InstrumentLineOneLine(lines[i], i + 1);
    }
    SplitJoinOn(out, '\n');
  }

  /** An instrumented line is still one line: the marker holds no newline. */
  lemma InstrumentLineOneLine(line: string, n: nat)
    requires '\n' !in line
    ensures '\n' !in InstrumentLine(line, n)
  {
    LineMarkerOneLine(n);
    assert '\n' !in LineMarker(n) + line;
  }

  lemma LineMarkerOneLine(n: nat)
    ensures '\n' !in LineMarker(n)
  {
    NatToStringDigits(n);
    var d := NatToString(n);
    assert forall j :: 0 <= j < |d| ==> d[j] != '\n';
    assert '\n' !in d;
  }

  /** With no line to instrument, the line pass changes nothing. */
  lemma StepLinesIdentity(code: string)
    requires forall i :: 0 <= i < |SplitOn(code, '\n')| ==> SkipsLine(SplitOn(code, '\n')[i])
    ensures StepLines(code) == code
  {
    var lines := SplitOn(code, '\n');
    var out := seq(|lines|, i requires 0 <= i < |lines| => InstrumentLine(lines[i], i + 1));
    assert out == lines;
    JoinSplitOn(code, '\n');
  }

  /** The names in a header's clean argument list hold no newline, so the generated header keeps its four lines. */
  lemma CleanArgsOneLine(argsRaw: string)
    ensures '\n' !in CleanArgs(argsRaw)
  {
    var names := ArgNames(SplitOn(argsRaw, ','));
    ArgNamesAreNames(SplitOn(argsRaw, ','));
    forall i | 0 <= i < |names| ensures '\n' !in names[i] {
      assert forall j :: 0 <= j < |names[i]| ==> names[i][j] != '\n';
    }
    JoinArgsOneLine(names);
  }

  lemma {:induction false} JoinArgsOneLine(parts: seq<string>)
    requires forall i :: 0 <= i < |parts| ==> '\n' !in parts[i]
    ensures '\n' !in JoinArgs(parts)
    decreases |parts|
  {
    if |parts| > 1 {
      JoinArgsOneLine(parts[1..]);
      assert JoinArgs(parts) == parts[0] + ", " + JoinArgs(parts[1..]);
    }
  }

  // --- Literal replacements cannot bring their pattern back ---

  /** `x` and `y` differ somewhere within their common length. */
  ghost predicate Clashes(x: string, y: string)
  {
    exists j :: 0 <= j < |x| && j < |y| && x[j] != y[j]
  }

  /**
   * A replacement `r` that can create no occurrence of `p`: `p` cannot start
   * inside `r` (only at its first character, where the two clash), and
   * `r`'s first character is not in the rest of `p`.
   */
  ghost predicate SafeFor(r: string, p: string)
  {
    |r| > 0 && |p| > 0 && r[0] !in p[1..] && Clashes(r, p) &&
    forall i :: 1 <= i < |r| ==> r[i] != p[0]
  }

  lemma {:induction false} OccursFrom(t: string, n: nat, p: string)
    requires n <= |t| && Occurs(t[n..], p)
    ensures Occurs(t, p)
    decreases n
  {
    if n > 0 {
      assert t[1..][n - 1..] == t[n..];
      OccursFrom(t[1..], n - 1, p);
    }
  }

  /** An occurrence in `a + b` lies in `b` or starts inside `a`. */
  lemma {:induction false} OccursSplit(a: string, b: string, p: string)
    requires Occurs(a + b, p)
    ensures Occurs(b, p) || exists i :: 0 <= i < |a| && StartsWith((a + b)[i..], p)
    decreases |a|
  {
    if |a| > 0 && StartsWith(a + b, p) {
      assert (a + b)[0..] == a + b;
    } else if |a| > 0 {
      assert (a + b)[1..] == a[1..] + b;
      OccursSplit(a[1..], b, p);
      if !Occurs(b, p) {
        var i :| 0 <= i < |a[1..]| && StartsWith((a[1..] + b)[i..], p);
        assert (a + b)[i + 1..] == (a[1..] + b)[i..];
      }
    } else if |a| == 0 {
      assert a + b == b;
    }
  }

  /** One step of a literal rewrite: a match is replaced, any other character kept. */
  lemma RewriteLiteralStep(q: string, r: string, prev: Option<char>, u: string)
    requires |q| > 0 && |u| > 0
    ensures StartsWith(u, q) ==>
      Rewrite(Literal(q, r), prev, u) == r + Rewrite(Literal(q, r), Some(u[|q| - 1]), u[|q|..])
    ensures !StartsWith(u, q) ==>
      Rewrite(Literal(q, r), prev, u) == [u[0]] + Rewrite(Literal(q, r), Some(u[0]), u[1..])
  {
    if StartsWith(u, q) {
      assert MatchAt(Literal(q, r), prev, u) == Some(Hit(|q|, r));
    } else {
      assert MatchAt(Literal(q, r), prev, u) == None;
    }
  }

  /** Text that a literal rewrite turns into something starting with `w` started with `w`, when `w` lacks the replacement's first character. */
  lemma {:induction false} LiteralPrefixBack(q: string, r: string, prev: Option<char>, u: string, w: string)
    requires |q| > 0 && |r| > 0 && r[0] !in w
    requires StartsWith(Rewrite(Literal(q, r), prev, u), w)
    ensures StartsWith(u, w)
    decreases |w|
  {
    if |w| > 0 {
      var out := Rewrite(Literal(q, r), prev, u);
      assert |u| > 0;
      RewriteLiteralStep(q, r, prev, u);
      assert out[0] == w[0] && w[0] != r[0];
      assert !StartsWith(u, q);
      var tail := Rewrite(Literal(q, r), Some(u[0]), u[1..]);
      assert out == [u[0]] + tail;
      assert StartsWith(tail, w[1..]) by {
        forall i | 0 <= i < |w| - 1
          ensures tail[i] == w[1..][i]
        {
          assert tail[i] == out[i + 1] && out[..|w|][i + 1] == w[i + 1];
        }
        assert tail[..|w| - 1] == w[1..];
      }
      LiteralPrefixBack(q, r, Some(u[0]), u[1..], w[1..]);
      assert u[..|w|] == [u[0]] + u[1..][..|w| - 1];
    }
  }

  /**
   * After replacing every `q` by `r`, an occurrence of `p` in the output
   * was already in the input, and `q` itself never occurs in the output,
   * as long as `r` cannot create `p`.
   */
  lemma {:induction false} LiteralKeepsOut(q: string, r: string, p: string, prev: Option<char>, t: string)
    requires |q| > 0 && SafeFor(r, p)
    ensures Occurs(Rewrite(Literal(q, r), prev, t), p) ==> Occurs(t, p) && p != q
    decreases |t|, 1
  {
    if |t| > 0 {
      RewriteLiteralStep(q, r, prev, t);
      if StartsWith(t, q) {
        KeepsOutReplaced(q, r, p, t);
      } else {
        KeepsOutKept(q, r, p, t);
      }
    }
  }

  /** `LiteralKeepsOut` where the text starts with `q`, which becomes `r`. */
  lemma {:induction false} KeepsOutReplaced(q: string, r: string, p: string, t: string)
    requires |q| > 0 && SafeFor(r, p) && StartsWith(t, q)
    ensures Occurs(r + Rewrite(Literal(q, r), Some(t[|q| - 1]), t[|q|..]), p) ==> Occurs(t, p) && p != q
    decreases |t|, 0
  {
    var tail := Rewrite(Literal(q, r), Some(t[|q| - 1]), t[|q|..]);
    if Occurs(r + tail, p) {
      OccursSplit(r, tail, p);
      if Occurs(tail, p) {
        LiteralKeepsOut(q, r, p, Some(t[|q| - 1]), t[|q|..]);
        OccursFrom(t, |q|, p);
      }
    }
  }

  /** `LiteralKeepsOut` where the text does not start with `q`, so its first character is kept. */
  lemma {:induction false} KeepsOutKept(q: string, r: string, p: string, t: string)
    requires |q| > 0 && SafeFor(r, p) && |t| > 0 && !StartsWith(t, q)
    ensures Occurs([t[0]] + Rewrite(Literal(q, r), Some(t[0]), t[1..]), p) ==> Occurs(t, p) && p != q
    decreases |t|, 0
  {
    var tail := Rewrite(Literal(q, r), Some(t[0]), t[1..]);
    if Occurs([t[0]] + tail, p) {
      OccursSplit([t[0]], tail, p);
      if Occurs(tail, p) {
        LiteralKeepsOut(q, r, p, Some(t[0]), t[1..]);
        OccursFrom(t, 1, p);
      } else {
        assert StartsWith([t[0]] + tail, p);
        MissStartsHere(q, r, p, t);
      }
    }
  }

  /** Where the rewrite keeps the first character and `p` starts there in the output, `p` started there in the input. */
  lemma MissStartsHere(q: string, r: string, p: string, t: string)
    requires |q| > 0 && SafeFor(r, p) && |t| > 0
    requires StartsWith([t[0]] + Rewrite(Literal(q, r), Some(t[0]), t[1..]), p)
    ensures StartsWith(t, p)
  {
    var tail := Rewrite(Literal(q, r), Some(t[0]), t[1..]);
    var out := [t[0]] + tail;
    assert tail[..|p| - 1] == out[1..|p|] == p[1..];
    LiteralPrefixBack(q, r, Some(t[0]), t[1..], p[1..]);
    assert t[..|p|] == [t[0]] + t[1..][..|p| - 1];
  }

  lemma SafeReplacements()
    ensures SafeFor(".push(", ".push_back(")
    ensures SafeFor(".pop(", ".push_back(") && SafeFor(".pop(", ".pop_back(")
    ensures SafeFor(".length", ".push_back(") && SafeFor(".length", ".pop_back(") && SafeFor(".length", ".size()")
    ensures SafeFor("+", "<<")
  {
    assert ".push("[5] != ".push_back("[5];
    assert ".pop("[2] != ".push_back("[2];
    assert ".pop("[4] != ".pop_back("[4];
    assert ".length"[1] != ".push_back("[1];
    assert ".length"[1] != ".pop_back("[1];
    assert ".length"[1] != ".size()"[1];
    assert "+"[0] != "<<"[0];
  }

  /** After the three vector-method renamings, none of the C++ method calls is left. */
  lemma MethodsPassRemoves(s: string)
    ensures !Occurs(MethodsPass(s), ".push_back(")
    ensures !Occurs(MethodsPass(s), ".pop_back(")
    ensures !Occurs(MethodsPass(s), ".size()")
  {
    SafeReplacements();
    var a := ReplaceAll(Literal(".push_back(", ".push("), s);
    var b := ReplaceAll(Literal(".pop_back(", ".pop("), a);
    var c := ReplaceAll(Literal(".size()", ".length"), b);
    LiteralKeepsOut(".push_back(", ".push(", ".push_back(", None, s);
    LiteralKeepsOut(".pop_back(", ".pop(", ".push_back(", None, a);
    LiteralKeepsOut(".pop_back(", ".pop(", ".pop_back(", None, a);
    LiteralKeepsOut(".size()", ".length", ".push_back(", None, b);
    LiteralKeepsOut(".size()", ".length", ".pop_back(", None, b);
    LiteralKeepsOut(".size()", ".length", ".size()", None, b);
  }

  // --- What the two passes over a `cout` message do ---

  /** `ps[0] + sep + ps[1] + … + sep + ps[n]`. */
  function JoinWith(ps: seq<string>, sep: string): string
    requires |ps| >= 1
    decreases |ps|
  {
    if |ps| == 1 then ps[0] else ps[0] + sep + JoinWith(ps[1..], sep)
  }

  /** `t` cut at each `q` that a left-to-right scan meets: the pieces between those occurrences. */
  function CutAt(q: string, t: string): (ps: seq<string>)
    requires |q| > 0
    ensures |ps| >= 1
    decreases |t|
  {
    if |t| == 0 then [""]
    else if StartsWith(t, q) then [""] + CutAt(q, t[|q|..])
    else
      var ps := CutAt(q, t[1..]);
      [[t[0]] + ps[0]] + ps[1..]
  }

  lemma {:induction false} JoinWithHead(c: char, ps: seq<string>, sep: string)
    requires |ps| >= 1
    ensures JoinWith([[c] + ps[0]] + ps[1..], sep) == [c] + JoinWith(ps, sep)
  {
    if |ps| > 1 {
      assert ([[c] + ps[0]] + ps[1..])[1..] == ps[1..];
    }
  }

  lemma {:induction false} JoinWithStarts(ps: seq<string>, sep: string)
    requires |ps| >= 1
    ensures StartsWith(JoinWith(ps, sep), ps[0])
  {
    if |ps| > 1 {
      assert JoinWith(ps, sep)[..|ps[0]|] == ps[0];
    }
  }

  /**
   * A literal global replace, stated without the scan: the text is its
   * pieces joined by `q`, the output is the same pieces joined by `r`, and
   * no piece holds `q`. Every occurrence the scan meets becomes `r`, and
   * every other character is kept in order.
   */
  lemma {:induction false} LiteralCut(q: string, r: string, prev: Option<char>, t: string)
    requires |q| > 0
    ensures JoinWith(CutAt(q, t), q) == t
    ensures JoinWith(CutAt(q, t), r) == Rewrite(Literal(q, r), prev, t)
    ensures forall i :: 0 <= i < |CutAt(q, t)| ==> !Occurs(CutAt(q, t)[i], q)
    decreases |t|, 1
  {
    if |t| > 0 {
      RewriteLiteralStep(q, r, prev, t);
      if StartsWith(t, q) {
        LiteralCutReplaced(q, r, t);
      } else {
        LiteralCutKept(q, r, t);
      }
    }
  }

  /** `LiteralCut` where the text starts with `q`: an empty piece, then `q` and the cut of the rest. */
  lemma {:induction false} LiteralCutReplaced(q: string, r: string, t: string)
    requires |q| > 0 && StartsWith(t, q)
    ensures JoinWith(CutAt(q, t), q) == t
    ensures JoinWith(CutAt(q, t), r) == r + Rewrite(Literal(q, r), Some(t[|q| - 1]), t[|q|..])
    ensures forall i :: 0 <= i < |CutAt(q, t)| ==> !Occurs(CutAt(q, t)[i], q)
    decreases |t|, 0
  {
    var ps := CutAt(q, t);
    var rest := CutAt(q, t[|q|..]);
    LiteralCut(q, r, Some(t[|q| - 1]), t[|q|..]);
    assert ps == [""] + rest;
    assert ps[1..] == rest;
    assert t == q + t[|q|..];
  }

  /** `LiteralCut` where the text does not start with `q`: its first character joins the first piece of the rest. */
  lemma {:induction false} LiteralCutKept(q: string, r: string, t: string)
    requires |q| > 0 && |t| > 0 && !StartsWith(t, q)
    ensures JoinWith(CutAt(q, t), q) == t
    ensures JoinWith(CutAt(q, t), r) == [t[0]] + Rewrite(Literal(q, r), Some(t[0]), t[1..])
    ensures forall i :: 0 <= i < |CutAt(q, t)| ==> !Occurs(CutAt(q, t)[i], q)
    decreases |t|, 0
  {
    var ps := CutAt(q, t);
    var rest := CutAt(q, t[1..]);
    LiteralCut(q, r, Some(t[0]), t[1..]);
    assert ps == [[t[0]] + rest[0]] + rest[1..];
    JoinWithHead(t[0], rest, q);
    JoinWithHead(t[0], rest, r);
    assert t == [t[0]] + t[1..];
    JoinWithStarts(rest, q);
    HeadPieceClear(q, t, rest[0]);
    assert ps[1..] == rest[1..];
  }

  /** A character that does not begin `q`, followed by a prefix of the rest of the text that holds no `q`, holds no `q`. */
  lemma HeadPieceClear(q: string, t: string, p: string)
    requires |q| > 0 && |t| > 0 && !StartsWith(t, q) && StartsWith(t[1..], p) && !Occurs(p, q)
    ensures !Occurs([t[0]] + p, q)
  {
    var x := [t[0]] + p;
    assert x[1..] == p;
  }

  /** A text cut into kept pieces and the matches removed between them. */
  datatype Cut = Cut(pieces: seq<string>, matches: seq<string>)

  /** `ps[0] + ms[0] + ps[1] + … + ms[n - 1] + ps[n]`. */
  function Weave(ps: seq<string>, ms: seq<string>): string
    requires |ps| == |ms| + 1
    decreases |ms|
  {
    if |ms| == 0 then ps[0] else ps[0] + ms[0] + Weave(ps[1..], ms[1..])
  }

  function Concat(ps: seq<string>): string
    decreases |ps|
  {
    if |ps| == 0 then "" else ps[0] + Concat(ps[1..])
  }

  /** `t` cut at each `<<\s*endl` match that a left-to-right scan meets. */
  function EndlCut(t: string): (c: Cut)
    ensures |c.pieces| == |c.matches| + 1
    decreases |t|
  {
    if |t| == 0 then Cut([""], [])
    else match MatchEndl(t)
      case Some(h) =>
        var c := EndlCut(t[h.len..]);
        Cut([""] + c.pieces, [t[..h.len]] + c.matches)
      case None =>
        var c := EndlCut(t[1..]);
        Cut([[t[0]] + c.pieces[0]] + c.pieces[1..], c.matches)
  }

  /** No `<<\s*endl` match starts anywhere in `s`. */
  predicate NoEndl(s: string)
  {
    forall j :: 0 <= j < |s| ==> MatchEndl(s[j..]).None?
  }

  lemma RewriteEndlStep(prev: Option<char>, u: string)
    requires |u| > 0
    ensures MatchEndl(u).Some? ==>
      Rewrite(Endl, prev, u) == Rewrite(Endl, Some(u[MatchEndl(u).value.len - 1]), u[MatchEndl(u).value.len..])
    ensures MatchEndl(u).None? ==> Rewrite(Endl, prev, u) == [u[0]] + Rewrite(Endl, Some(u[0]), u[1..])
  {
    assert MatchAt(Endl, prev, u) == MatchEndl(u);
  }

  lemma {:induction false} WeaveHead(c: char, ps: seq<string>, ms: seq<string>)
    requires |ps| == |ms| + 1
    ensures Weave([[c] + ps[0]] + ps[1..], ms) == [c] + Weave(ps, ms)
  {
    if |ms| > 0 {
      assert ([[c] + ps[0]] + ps[1..])[1..] == ps[1..];
    }
  }

  lemma {:induction false} WeaveStarts(ps: seq<string>, ms: seq<string>)
    requires |ps| == |ms| + 1
    ensures StartsWith(Weave(ps, ms), ps[0])
  {
    if |ms| > 0 {
      assert Weave(ps, ms)[..|ps[0]|] == ps[0];
    }
  }

  lemma {:induction false} ConcatHead(c: char, ps: seq<string>)
    requires |ps| >= 1
    ensures Concat([[c] + ps[0]] + ps[1..]) == [c] + Concat(ps)
  {
    var qs := [[c] + ps[0]] + ps[1..];
    assert qs[1..] == ps[1..];
    assert ([c] + ps[0]) + Concat(ps[1..]) == [c] + (ps[0] + Concat(ps[1..]));
  }

  /** A match at the start of a prefix of `t` is a match at the start of `t`. */
  lemma EndlInPrefix(t: string, x: string)
    requires StartsWith(t, x) && MatchEndl(x).Some?
    ensures MatchEndl(t).Some?
  {
    var len := MatchEndl(x).value.len;
    EndlIsRegexMatch(x);
    assert x[..len] == t[..len];
    EndlIsRegexMatch(t);
  }

  /**
   * The `<< endl` removal, stated without the scan: the text is its kept
   * pieces with the removed matches between them, the output is the kept
   * pieces alone, every removed match is a whole `<<\s*endl`, and no kept
   * piece holds one.
   */
  lemma EndlRemoved(prev: Option<char>, t: string)
    ensures var c := EndlCut(t);
      Weave(c.pieces, c.matches) == t &&
      Concat(c.pieces) == Rewrite(Endl, prev, t) &&
      (forall i :: 0 <= i < |c.matches| ==> EndlText(c.matches[i])) &&
      (forall i :: 0 <= i < |c.pieces| ==> NoEndl(c.pieces[i]))
  {
    EndlCutShape(t);
    EndlCutIsPass(prev, t);
  }

  /** The kept pieces of the cut, concatenated, are what the `endl` pass returns. */
  lemma {:induction false} EndlCutIsPass(prev: Option<char>, t: string)
    ensures Concat(EndlCut(t).pieces) == Rewrite(Endl, prev, t)
    decreases |t|
  {
    if |t| > 0 {
      RewriteEndlStep(prev, t);
      if MatchEndl(t).Some? {
        var len := MatchEndl(t).value.len;
        var rest := EndlCut(t[len..]);
        EndlCutAtMatch(t);
        EndlCutIsPass(Some(t[len - 1]), t[len..]);
        assert ([""] + rest.pieces)[1..] == rest.pieces;
      } else {
        var rest := EndlCut(t[1..]);
        assert EndlCut(t).pieces == [[t[0]] + rest.pieces[0]] + rest.pieces[1..];
        ConcatHead(t[0], rest.pieces);
        EndlCutIsPass(Some(t[0]), t[1..]);
      }
    }
  }

  /** The cut gives the text back, removes only whole `<<\s*endl` runs, and keeps no match in a piece. */
  lemma {:induction false} EndlCutShape(t: string)
    ensures var c := EndlCut(t);
      Weave(c.pieces, c.matches) == t &&
      (forall i :: 0 <= i < |c.matches| ==> EndlText(c.matches[i])) &&
      (forall i :: 0 <= i < |c.pieces| ==> NoEndl(c.pieces[i]))
    decreases |t|, 1
  {
    if |t| > 0 {
      if MatchEndl(t).Some? {
        EndlCutShapeMatch(t);
      } else {
        EndlCutShapeKept(t);
      }
    }
  }

  /** `EndlCutShape` where a match starts the text: an empty piece, the match, then the cut of the rest. */
  lemma {:induction false} EndlCutShapeMatch(t: string)
    requires MatchEndl(t).Some?
    ensures var c := EndlCut(t);
      Weave(c.pieces, c.matches) == t &&
      (forall i :: 0 <= i < |c.matches| ==> EndlText(c.matches[i])) &&
      (forall i :: 0 <= i < |c.pieces| ==> NoEndl(c.pieces[i]))
    decreases |t|, 0
  {
    var len := MatchEndl(t).value.len;
    EndlCutAtMatch(t);
    EndlFound(t);
    EndlCutShape(t[len..]);
    MatchFirstCut(t, len, EndlCut(t[len..]), EndlCut(t));
  }

  /** A cut of `t` that starts with the removed match `t[..len]`: an empty first piece, the match, then the cut `rest` of `t[len..]`. */
  lemma MatchFirstCut(t: string, len: nat, rest: Cut, c: Cut)
    requires len <= |t| && EndlText(t[..len])
    requires |rest.pieces| == |rest.matches| + 1 && Weave(rest.pieces, rest.matches) == t[len..]
    requires forall i :: 0 <= i < |rest.matches| ==> EndlText(rest.matches[i])
    requires forall i :: 0 <= i < |rest.pieces| ==> NoEndl(rest.pieces[i])
    requires c == Cut([""] + rest.pieces, [t[..len]] + rest.matches)
    ensures Weave(c.pieces, c.matches) == t
    ensures forall i :: 0 <= i < |c.matches| ==> EndlText(c.matches[i])
    ensures forall i :: 0 <= i < |c.pieces| ==> NoEndl(c.pieces[i])
  {
    assert c.pieces[1..] == rest.pieces && c.matches[1..] == rest.matches;
    assert t[..len] + t[len..] == t;
    forall i | 0 <= i < |c.matches|
      ensures EndlText(c.matches[i])
    {
      if i > 0 {
        assert c.matches[i] == rest.matches[i - 1];
      }
    }
    forall i | 0 <= i < |c.pieces|
      ensures NoEndl(c.pieces[i])
    {
      if i > 0 {
        assert c.pieces[i] == rest.pieces[i - 1];
      }
    }
  }

  lemma EndlCutAtMatch(t: string)
    requires MatchEndl(t).Some?
    ensures var len := MatchEndl(t).value.len;
      EndlCut(t) == Cut([""] + EndlCut(t[len..]).pieces, [t[..len]] + EndlCut(t[len..]).matches)
  {
  }

  /** `EndlCutShape` where no match starts the text: its first character joins the first kept piece of the rest. */
  lemma {:induction false} EndlCutShapeKept(t: string)
    requires |t| > 0 && MatchEndl(t).None?
    ensures var c := EndlCut(t);
      Weave(c.pieces, c.matches) == t &&
      (forall i :: 0 <= i < |c.matches| ==> EndlText(c.matches[i])) &&
      (forall i :: 0 <= i < |c.pieces| ==> NoEndl(c.pieces[i]))
    decreases |t|, 0
  {
    var c := EndlCut(t);
    var rest := EndlCut(t[1..]);
    EndlCutShape(t[1..]);
    assert c == Cut([[t[0]] + rest.pieces[0]] + rest.pieces[1..], rest.matches);
    WeaveHead(t[0], rest.pieces, rest.matches);
    assert t == [t[0]] + t[1..];
    WeaveStarts(rest.pieces, rest.matches);
    EndlHeadPiece(t, rest.pieces[0]);
    assert c.pieces[1..] == rest.pieces[1..];
  }

  /** A kept first character followed by a prefix of the rest of the text that holds no match holds no match. */
  lemma EndlHeadPiece(t: string, p: string)
    requires |t| > 0 && MatchEndl(t).None? && StartsWith(t[1..], p) && NoEndl(p)
    ensures NoEndl([t[0]] + p)
  {
    var x := [t[0]] + p;
    forall j | 0 <= j < |x|
      ensures MatchEndl(x[j..]).None?
    {
      if j == 0 {
        assert x == t[..|x|];
        if MatchEndl(x).Some? {
          EndlInPrefix(t, x);
        }
      } else {
        assert x[j..] == p[j - 1..];
      }
    }
  }

  /**
   * How a `cout` message is built: the text cut at the `<< endl` matches
   * the scan removes (`EndlRemoved`), the kept pieces joined and trimmed,
   * and that cut at each `<<` and joined again with `+` in its place, so
   * that no `<<` is left.
   */
  lemma LogMessageHasNoShift(content: string)
    ensures var s := Trim(Concat(EndlCut(content).pieces)); var ps := CutAt("<<", s);
      JoinWith(ps, "<<") == s && LogMessage(content) == JoinWith(ps, "+") &&
      (forall i :: 0 <= i < |ps| ==> !Occurs(ps[i], "<<"))
    ensures !Occurs(LogMessage(content), "<<")
  {
    SafeReplacements();
    EndlRemoved(None, content);
    LiteralCut("<<", "+", None, Trim(Rewrite(Endl, None, content)));
    LiteralKeepsOut("<<", "+", "<<", None, Trim(Rewrite(Endl, None, content)));
  }

  /** A `<<` followed by something other than `endl` is not the pattern. */
  lemma EndlNoMatchExample()
    ensures MatchEndl("<< b << endl").None?
  {
    var w := "<< b << endl";
    assert w[2..] == " b << endl" && SpanSpaces(" b << endl") == 1;
    assert w[3..][..4] == "b <<";
  }

  /** A text that does not start with `<<` holds no `<< endl` match at its start. */
  lemma NotShiftNoEndl(u: string)
    requires 2 <= |u| && !(u[0] == '<' && u[1] == '<')
    ensures MatchEndl(u).None?
  {
    assert u[..2] == [u[0], u[1]];
  }

  /** Where no match starts the text, its first character joins the first kept piece of the cut of the rest `v`. */
  lemma EndlCutKeeps(u: string, v: string)
    requires |u| > 0 && MatchEndl(u).None? && u[1..] == v
    ensures EndlCut(u) == Cut([[u[0]] + EndlCut(v).pieces[0]] + EndlCut(v).pieces[1..], EndlCut(v).matches)
  {
  }

  /** Putting back the first character of `p + v` in front of `p`'s tail restores `p`. */
  lemma ConsOfTail(p: string, v: string, y: string)
    requires |p| > 0
    ensures [(p + v)[0]] + (p[1..] + y) == p + y
  {
    assert (p + v)[0] == p[0];
    assert [p[0]] + p[1..] == p;
  }

  /** Where no match starts at any position of `p`, all of `p` joins the first kept piece of the cut of `v`. */
  lemma {:induction false} EndlCutSkip(p: string, v: string)
    requires forall i :: 0 <= i < |p| ==> MatchEndl((p + v)[i..]).None?
    ensures EndlCut(p + v) == Cut([p + EndlCut(v).pieces[0]] + EndlCut(v).pieces[1..], EndlCut(v).matches)
    decreases |p|
  {
    if |p| == 0 {
      var c := EndlCut(v);
      assert p + v == v && p + c.pieces[0] == c.pieces[0];
      assert [c.pieces[0]] + c.pieces[1..] == c.pieces;
    } else {
      assert (p + v)[1..] == p[1..] + v;
      forall i | 0 <= i < |p| - 1
        ensures MatchEndl((p[1..] + v)[i..]).None?
      {
        assert (p[1..] + v)[i..] == (p + v)[i + 1..];
      }
      assert (p + v)[0..] == p + v;
      var c := EndlCut(v);
      var r := EndlCut(p[1..] + v);
      EndlCutSkip(p[1..], v);
      assert r.pieces[0] == p[1..] + c.pieces[0] && r.pieces[1..] == c.pieces[1..] && r.matches == c.matches;
      EndlCutKeeps(p + v, p[1..] + v);
      ConsOfTail(p, v, c.pieces[0]);
    }
  }

  /** `<< endl` on its own is one removed match between two empty pieces. */
  lemma EndlCutTail()
    ensures EndlCut("<< endl") == Cut(["", ""], ["<< endl"])
  {
    var v := "<< endl";
    assert v[2..] == " endl" && SpanSpaces(v[2..]) == 1;
    assert v[3..][..4] == "endl";
    EndlCutAtMatch(v);
    assert v[..7] == v && v[7..] == "";
  }

  /** No `<< endl` match starts within `a << b ` in `a << b << endl`. */
  lemma EndlNoneBefore(w: string)
    requires w == "a << b " + "<< endl"
    ensures forall i :: 0 <= i < 7 ==> MatchEndl(w[i..]).None?
  {
    forall i | 0 <= i < 7
      ensures MatchEndl(w[i..]).None?
    {
      if i == 2 {
        assert w[2..] == "<< b << endl";
        EndlNoMatchExample();
      } else {
        assert !(w[i] == '<' && w[i + 1] == '<');
        NotShiftNoEndl(w[i..]);
      }
    }
  }

  /** `a << b << endl` is cut into the kept `a << b ` and the removed `<< endl`. */
  lemma EndlCutExample(p: string, v: string)
    requires p == "a << b " && v == "<< endl"
    ensures EndlCut(p + v) == Cut([p, ""], [v])
  {
    EndlCutTail();
    EndlNoneBefore(p + v);
    EndlCutSkip(p, v);
    assert p + "" == p;
  }

  /** The `<< endl` pass on `a << b << endl` drops only the trailing `<< endl`. */
  lemma EndlPassExample(p: string, v: string)
    requires p == "a << b " && v == "<< endl"
    ensures Rewrite(Endl, None, p + v) == p
  {
    EndlCutIsPass(None, p + v);
    EndlCutExample(p, v);
    assert Concat([p, ""]) == p by {
      assert [p, ""][1..] == [""] && [""][1..] == [];
      assert Concat([""]) == "" && p + "" == p;
    }
  }

  /** The `<<` pass on `a << b` gives `a + b`. */
  lemma ShiftPassExample()
    ensures Rewrite(Literal("<<", "+"), None, "a << b") == "a + b"
  {
    var m := "a << b";
    assert StartsWith(m[2..], "<<") && m[2..][2..] == m[4..];
    assert !StartsWith(m, "<<") && !StartsWith(m[1..], "<<");
    assert !StartsWith(m[4..], "<<") && !StartsWith(m[5..], "<<");
    assert Rewrite(Literal("<<", "+"), Some(m[4]), m[5..]) == "b";
    assert Rewrite(Literal("<<", "+"), Some(m[3]), m[4..]) == " b";
    assert Rewrite(Literal("<<", "+"), Some(m[1]), m[2..]) == "+ b";
    assert Rewrite(Literal("<<", "+"), Some(m[0]), m[1..]) == " + b";
  }

  /** Trimming `a << b ` drops the one trailing space. */
  lemma TrimExample()
    ensures Trim("a << b ") == "a << b"
  {
    var e := "a << b ";
    assert SpanSpaces(e) == 0 && TrimEndAt(e, 7, 0) == 6;
  }

  /** `cout << a << b << endl;` logs `a + b`: the trailing `<< endl` goes, the other `<<` becomes `+`. */
  lemma LogMessageExample()
    ensures LogMessage("a << b << endl") == "a + b"
  {
    var p, v := "a << b ", "<< endl";
    EndlPassExample(p, v);
    assert p + v == "a << b << endl";
    TrimExample();
    ShiftPassExample();
  }

  /** `return x;` reports and returns `x`. */
  lemma ReturnExample()
    ensures MatchReturn("return x;") == Some(Hit(9, "tracer.return(x, 0); return x;"))
  {
    var t := "return x;";
    assert StartsWith(t, "return");
    assert t[6..] == " x;";
    assert SpanSpaces(" x;") == 1 by {
      assert " x;"[1..] == "x;";
    }
    assert t[7..] == "x;";
    assert LazyTo("x;", ';') == Some(1) by {
      assert "x;"[1..] == ";";
    }
    assert t[7..8] == "x";
    assert ReturnArg(t) == Some("x");
    assert Trim("x") == "x" by {
      assert SpanSpaces("x") == 0 && TrimEndAt("x", 1, 0) == 1;
    }
    assert ReturnValue("x") == "x";
    assert "tracer.return(" + "x" + ", 0); return " + "x" + ";" == "tracer.return(x, 0); return x;";
  }

  /** A bare `return;` captures the empty expression. */
  lemma BareReturnArg()
    ensures ReturnArg("return;") == Some("")
  {
    var t := "return;";
    assert StartsWith(t, "return");
    assert t[6..] == ";" && SpanSpaces(";") == 0 && LazyTo(";", ';') == Some(0);
  }

  /** A bare `return;` reports and returns `undefined`. */
  lemma BareReturnExample()
    ensures MatchReturn("return;") == Some(Hit(7, "tracer.return(undefined, 0); return undefined;"))
  {
    BareReturnArg();
    assert "return;"[6..] == ";" && SpanSpaces(";") == 0;
    assert ReturnValue("") == "undefined";
    assert "tracer.return(" + "undefined" + ", 0); return " + "undefined" + ";" ==
      "tracer.return(undefined, 0); return undefined;";
  }

  // --- Each matcher finds its regular expression's match ---
  //
  // A predicate per pattern says when a whole string matches it; the lemma
  // beside it says that the matcher reports the shortest prefix of the text
  // that does, and reports a match whenever some prefix does. For these
  // patterns that is the match the backtracking search returns: the greedy
  // `\s` runs are followed by a character that is not a space, so only
  // their full length can succeed, and a lazy `.*?` stops at the first
  // character that lets the rest match.

  /** `s`, in full, matches `#include\s+<.*?>`. */
  ghost predicate IncludeText(s: string)
  {
    StartsWith(s, "#include") && 10 <= |s| && s[|s| - 1] == '>' &&
    exists i :: 8 < i < |s| - 1 && AllSpaces(s[8..i]) && s[i] == '<' && OneLine(s[i + 1..|s| - 1])
  }

  /** `s`, in full, matches `using\s+namespace\s+std;`. */
  ghost predicate UsingText(s: string)
  {
    StartsWith(s, "using") &&
    exists i, j :: 5 < i && i + 9 < j && j + 4 == |s| && AllSpaces(s[5..i]) &&
      s[i..i + 9] == "namespace" && AllSpaces(s[i + 9..j]) && s[j..] == "std;"
  }

  /** `s`, in full, matches `<<\s*endl`. */
  ghost predicate EndlText(s: string)
  {
    6 <= |s| && s[..2] == "<<" && AllSpaces(s[2..|s| - 4]) && s[|s| - 4..] == "endl"
  }

  /** `s`, in full, matches `return\s*(.*?);`. */
  ghost predicate ReturnText(s: string)
  {
    StartsWith(s, "return") && 7 <= |s| && s[|s| - 1] == ';' &&
    exists i :: 6 <= i < |s| && AllSpaces(s[6..i]) && OneLine(s[i..|s| - 1])
  }

  /** `s`, in full, matches `vector\s*<.*?>`. */
  ghost predicate VectorText(s: string)
  {
    StartsWith(s, "vector") && 8 <= |s| && s[|s| - 1] == '>' &&
    exists i :: 6 <= i < |s| - 1 && AllSpaces(s[6..i]) && s[i] == '<' && OneLine(s[i + 1..|s| - 1])
  }

  lemma IncludeIsRegexMatch(t: string)
    ensures MatchInclude(t).Some? ==> IncludeText(t[..MatchInclude(t).value.len])
    ensures forall k :: 0 <= k <= |t| && IncludeText(t[..k]) ==>
      MatchInclude(t).Some? && MatchInclude(t).value.len <= k
  {
    if MatchInclude(t).Some? {
      IncludeFound(t);
    }
    forall k | 0 <= k <= |t| && IncludeText(t[..k])
      ensures MatchInclude(t).Some? && MatchInclude(t).value.len <= k
    {
      IncludeNoShorter(t, k);
    }
  }

  lemma IncludeFound(t: string)
    requires MatchInclude(t).Some?
    ensures IncludeText(t[..MatchInclude(t).value.len])
  {
    var len := MatchInclude(t).value.len;
    var n := SpanSpaces(t[8..]);
    var x := t[9 + n..];
    var k := LazyTo(x, '>').value;
    var s := t[..len];
    assert len == 9 + n + k + 1;
    assert AllSpaces(s[8..8 + n]) by {
      assert s[8..8 + n] == t[8..][..n];
    }
    assert OneLine(s[8 + n + 1..|s| - 1]) by {
      assert s[9 + n..len - 1] == x[..k];
    }
    assert s[8 + n] == '<';
  }

  lemma IncludeNoShorter(t: string, k: nat)
    requires k <= |t| && IncludeText(t[..k])
    ensures MatchInclude(t).Some? && MatchInclude(t).value.len <= k
  {
    var s := t[..k];
    var i :| 8 < i < |s| - 1 && AllSpaces(s[8..i]) && s[i] == '<' && OneLine(s[i + 1..|s| - 1]);
    SliceOfPrefix(t, k, 0, 8);
    SliceOfPrefix(t, k, 8, i);
    SliceOfPrefix(t, k, i + 1, k - 1);
    IncludeAt(t, i, k - 2 - i);
  }

  /** An include whose `<` is at `i` and whose first `>` after it is `j + 1` further on is matched, no longer than that. */
  lemma IncludeAt(t: string, i: nat, j: nat)
    requires 8 < i && i + 1 + j < |t| && StartsWith(t, "#include")
    requires AllSpaces(t[8..][..i - 8]) && t[i] == '<'
    requires OneLine(t[i + 1..][..j]) && t[i + 1 + j] == '>'
    ensures MatchInclude(t).Some? && MatchInclude(t).value.len <= i + j + 2
  {
    SpanSpacesAt(t[8..], i - 8);
    LazyToReaches(t[i + 1..], '>', j);
  }

  lemma UsingIsRegexMatch(t: string)
    ensures MatchUsing(t).Some? ==> UsingText(t[..MatchUsing(t).value.len])
    ensures forall k :: 0 <= k <= |t| && UsingText(t[..k]) ==>
      MatchUsing(t).Some? && MatchUsing(t).value.len == k
  {
    if MatchUsing(t).Some? {
      UsingFound(t);
    }
    forall k | 0 <= k <= |t| && UsingText(t[..k])
      ensures MatchUsing(t).Some? && MatchUsing(t).value.len == k
    {
      UsingNoOther(t, k);
    }
  }

  lemma UsingFound(t: string)
    requires MatchUsing(t).Some?
    ensures UsingText(t[..MatchUsing(t).value.len])
  {
    var len := MatchUsing(t).value.len;
    var n := SpanSpaces(t[5..]);
    var m := SpanSpaces(t[14 + n..]);
    var s := t[..len];
    assert len == 14 + n + m + 4;
    assert AllSpaces(s[5..5 + n]) by {
      assert s[5..5 + n] == t[5..][..n];
    }
    assert s[5 + n..5 + n + 9] == "namespace" by {
      assert s[5 + n..14 + n] == t[5 + n..][..9];
    }
    assert AllSpaces(s[5 + n + 9..14 + n + m]) by {
      assert s[14 + n..14 + n + m] == t[14 + n..][..m];
    }
    assert s[14 + n + m..] == "std;" by {
      assert s[14 + n + m..] == t[14 + n + m..][..4];
    }
  }

  lemma UsingNoOther(t: string, k: nat)
    requires k <= |t| && UsingText(t[..k])
    ensures MatchUsing(t).Some? && MatchUsing(t).value.len == k
  {
    var s := t[..k];
    var i, j :| 5 < i && i + 9 < j && j + 4 == |s| && AllSpaces(s[5..i]) &&
      s[i..i + 9] == "namespace" && AllSpaces(s[i + 9..j]) && s[j..] == "std;";
    assert t[..5] == s[..5] && t[5..i] == s[5..i] && t[i..i + 9] == s[i..i + 9];
    assert t[i + 9..j] == s[i + 9..j] && t[j..j + 4] == s[j..];
    UsingAt(t, i, j);
  }

  /** The pieces of `using namespace std;` at the positions `i` (of `namespace`) and `j` (of `std;`) give a match that ends after `std;`. */
  lemma UsingAt(t: string, i: nat, j: nat)
    requires 5 < i && i + 9 < j && j + 4 <= |t| && t[..5] == "using" && AllSpaces(t[5..i])
    requires t[i..i + 9] == "namespace" && AllSpaces(t[i + 9..j]) && t[j..j + 4] == "std;"
    ensures MatchUsing(t) == Some(Hit(j + 4, ""))
  {
    UsingPieces(t, i, j);
    assert t[5..][i - 5..] == t[i..];
    assert t[i..][9..] == t[i + 9..];
    assert t[i + 9..][j - i - 9..] == t[j..];
  }

  lemma UsingPieces(t: string, i: nat, j: nat)
    requires 5 < i && i + 9 < j && j + 4 <= |t| && AllSpaces(t[5..i])
    requires t[i..i + 9] == "namespace" && AllSpaces(t[i + 9..j]) && t[j..j + 4] == "std;"
    ensures SpanSpaces(t[5..]) == i - 5 && StartsWith(t[i..], "namespace")
    ensures SpanSpaces(t[i + 9..]) == j - i - 9 && StartsWith(t[j..], "std;")
  {
    var u := t[5..];
    assert u[..i - 5] == t[5..i];
    assert u[i - 5] == t[i];
    SpanSpacesAt(u, i - 5);
    assert t[i..][..9] == t[i..i + 9];
    var w := t[i + 9..];
    assert w[..j - i - 9] == t[i + 9..j];
    assert w[j - i - 9] == t[j];
    SpanSpacesAt(w, j - i - 9);
    assert t[j..][..4] == t[j..j + 4];
  }

  lemma EndlIsRegexMatch(t: string)
    ensures MatchEndl(t).Some? ==> EndlText(t[..MatchEndl(t).value.len])
    ensures forall k :: 0 <= k <= |t| && EndlText(t[..k]) ==>
      MatchEndl(t).Some? && MatchEndl(t).value.len == k
  {
    if MatchEndl(t).Some? {
      EndlFound(t);
    }
    forall k | 0 <= k <= |t| && EndlText(t[..k])
      ensures MatchEndl(t).Some? && MatchEndl(t).value.len == k
    {
      EndlNoOther(t, k);
    }
  }

  lemma EndlFound(t: string)
    requires MatchEndl(t).Some?
    ensures EndlText(t[..MatchEndl(t).value.len])
  {
    var len := MatchEndl(t).value.len;
    var n := SpanSpaces(t[2..]);
    var s := t[..len];
    assert s[2..|s| - 4] == t[2..][..n];
    assert s[|s| - 4..] == t[2 + n..][..4];
  }

  lemma EndlNoOther(t: string, k: nat)
    requires k <= |t| && EndlText(t[..k])
    ensures MatchEndl(t).Some? && MatchEndl(t).value.len == k
  {
    var s := t[..k];
    assert t[2..][..k - 6] == s[2..|s| - 4] && t[2..][k - 6] == s[|s| - 4..][0];
    SpanSpacesAt(t[2..], k - 6);
    assert t[k - 4..][..4] == s[|s| - 4..];
  }

  lemma ReturnIsRegexMatch(t: string)
    ensures MatchReturn(t).Some? ==> ReturnText(t[..MatchReturn(t).value.len])
    ensures forall k :: 0 <= k <= |t| && ReturnText(t[..k]) ==>
      MatchReturn(t).Some? && MatchReturn(t).value.len <= k
  {
    if MatchReturn(t).Some? {
      ReturnFound(t);
    }
    forall k | 0 <= k <= |t| && ReturnText(t[..k])
      ensures MatchReturn(t).Some? && MatchReturn(t).value.len <= k
    {
      ReturnNoShorter(t, k);
    }
  }

  lemma ReturnFound(t: string)
    requires MatchReturn(t).Some?
    ensures ReturnText(t[..MatchReturn(t).value.len])
  {
    var len := MatchReturn(t).value.len;
    var n := SpanSpaces(t[6..]);
    var e := ReturnArg(t).value;
    assert len == 6 + n + |e| + 1 && e == t[6 + n..6 + n + |e|];
    assert t[6..6 + n] == t[6..][..n];
    ReturnTextAt(t, 6 + n, len);
  }

  /** A `return` with spaces up to `i` and one line from there to a `;` at `k - 1` matches in full up to `k`. */
  lemma ReturnTextAt(t: string, i: nat, k: nat)
    requires 6 <= i < k <= |t| && StartsWith(t, "return")
    requires AllSpaces(t[6..i]) && OneLine(t[i..k - 1]) && t[k - 1] == ';'
    ensures ReturnText(t[..k])
  {
    var s := t[..k];
    assert s[..6] == t[..6] && s[6..i] == t[6..i] && s[i..|s| - 1] == t[i..k - 1];
  }

  lemma ReturnNoShorter(t: string, k: nat)
    requires k <= |t| && ReturnText(t[..k])
    ensures MatchReturn(t).Some? && MatchReturn(t).value.len <= k
  {
    var s := t[..k];
    var i :| 6 <= i < |s| && AllSpaces(s[6..i]) && OneLine(s[i..|s| - 1]);
    SliceOfPrefix(t, k, 0, 6);
    SliceOfPrefix(t, k, 6, i);
    SliceOfPrefix(t, k, i, k - 1);
    assert s[..6] == s[0..6] && t[..6] == t[0..6];
    ReturnRunReaches(t, k, i);
  }

  /** With the spaces after `return` up to `i` and one line from there to a `;` at `k - 1`, the lazy run from the end of the spaces stops at that `;` or earlier. */
  lemma ReturnRunReaches(t: string, k: nat, i: nat)
    requires 6 <= i < k <= |t| && AllSpaces(t[6..i]) && OneLine(t[i..k - 1]) && t[k - 1] == ';'
    ensures 6 + SpanSpaces(t[6..]) < k
    ensures LazyTo(t[6 + SpanSpaces(t[6..])..], ';').Some?
    ensures LazyTo(t[6 + SpanSpaces(t[6..])..], ';').value <= k - 7 - SpanSpaces(t[6..])
  {
    var n := SpanSpaces(t[6..]);
    assert 6 + n < k;
    assert i <= 6 + n;
    var u := t[6 + n..];
    var w := u[..k - 7 - n];
    assert OneLine(w) by {
      forall j | 0 <= j < |w|
        ensures !IsLineTerm(w[j])
      {
        assert w[j] == t[i..k - 1][6 + n - i + j];
      }
    }
    assert u[k - 7 - n] == t[k - 1];
    LazyToReaches(u, ';', k - 7 - n);
  }

  lemma VectorIsRegexMatch(t: string)
    ensures MatchVectorType(t).Some? ==> VectorText(t[..MatchVectorType(t).value.len])
    ensures forall k :: 0 <= k <= |t| && VectorText(t[..k]) ==>
      MatchVectorType(t).Some? && MatchVectorType(t).value.len <= k
  {
    if MatchVectorType(t).Some? {
      VectorFound(t);
    }
    forall k | 0 <= k <= |t| && VectorText(t[..k])
      ensures MatchVectorType(t).Some? && MatchVectorType(t).value.len <= k
    {
      VectorNoShorter(t, k);
    }
  }

  lemma VectorFound(t: string)
    requires MatchVectorType(t).Some?
    ensures VectorText(t[..MatchVectorType(t).value.len])
  {
    var len := MatchVectorType(t).value.len;
    var n := SpanSpaces(t[6..]);
    var x := t[7 + n..];
    assert t[6..][n + 1..] == x;
    var k := LazyTo(x, '>').value;
    var s := t[..len];
    assert len == 7 + n + k + 1;
    assert AllSpaces(s[6..6 + n]) by {
      assert s[6..6 + n] == t[6..][..n];
    }
    assert OneLine(s[6 + n + 1..|s| - 1]) by {
      assert s[7 + n..len - 1] == t[7 + n..7 + n + k] == x[..k];
    }
    assert s[6 + n] == '<';
  }

  lemma VectorNoShorter(t: string, k: nat)
    requires k <= |t| && VectorText(t[..k])
    ensures MatchVectorType(t).Some? && MatchVectorType(t).value.len <= k
  {
    var s := t[..k];
    var i :| 6 <= i < |s| - 1 && AllSpaces(s[6..i]) && s[i] == '<' && OneLine(s[i + 1..|s| - 1]);
    SliceOfPrefix(t, k, 0, 6);
    SliceOfPrefix(t, k, 6, i);
    SliceOfPrefix(t, k, i + 1, k - 1);
    VectorAt(t, i, k - 2 - i);
  }

  /** A vector type whose `<` is at `i` and whose first `>` after it is `j + 1` further on is matched, no longer than that. */
  lemma VectorAt(t: string, i: nat, j: nat)
    requires 6 <= i && i + 1 + j < |t| && StartsWith(t, "vector")
    requires AllSpaces(t[6..][..i - 6]) && t[i] == '<'
    requires OneLine(t[i + 1..][..j]) && t[i + 1 + j] == '>'
    ensures MatchVectorType(t).Some? && MatchVectorType(t).value.len <= i + j + 2
  {
    SpanSpacesAt(t[6..], i - 6);
    LazyToReaches(t[i + 1..], '>', j);
  }

  /** A header is replaced by its four generated lines, the name and the cleaned parameters on one line each. */
  lemma MatchHeaderLines(t: string)
    requires HeaderAt(t).Some?
    ensures var p := HeaderAt(t).value;
      MatchHeader(t).Some? && '\n' !in p.name && '\n' !in CleanArgs(p.argsRaw) &&
      SplitOn(MatchHeader(t).value.out, '\n') == HeaderLines(p.name, CleanArgs(p.argsRaw))
  {
    var p := HeaderAt(t).value;
    CleanArgsOneLine(p.argsRaw);
    assert forall j :: 0 <= j < |p.name| ==> p.name[j] != '\n';
  }

  /** Where the rule matches nowhere, the global replace keeps the text as it is. */
  lemma {:induction false} RewriteKeepsUnmatched(rule: Rule, prev: Option<char>, t: string)
    requires MatchAt(rule, prev, t).None? || |t| == 0
    requires forall i :: 1 <= i < |t| ==> MatchAt(rule, Some(t[i - 1]), t[i..]).None?
    ensures Rewrite(rule, prev, t) == t
    decreases |t|
  {
    if |t| > 0 {
      var u := t[1..];
      forall i | 1 <= i < |u|
        ensures MatchAt(rule, Some(u[i - 1]), u[i..]).None?
      {
        assert u[i - 1] == t[i] && u[i..] == t[i + 1..];
      }
      if |u| > 0 {
        assert MatchAt(rule, Some(t[0]), u).None? by {
          assert t[1..] == u;
        }
      }
      RewriteKeepsUnmatched(rule, Some(t[0]), u);
    }
  }

  /**
   * A `cout << endl;` statement logs the bare word `endl`: its text is
   * `endl`, and the `<< endl` removal only applies to an `endl` that a `<<`
   * precedes inside that text.
   */
  lemma EndlMessage()
    ensures LogMessage("endl") == "endl"
  {
    EndlUnmatched(Endl);
    EndlTrimmed();
    EndlUnmatched(Literal("<<", "+"));
  }

  lemma EndlTrimmed()
    ensures Trim("endl") == "endl"
  {
    assert SpanSpaces("endl") == 0;
    assert TrimEndAt("endl", 4, 0) == 4;
  }

  /** Neither `<< endl` nor `<<` occurs in the word `endl`. */
  lemma EndlUnmatched(rule: Rule)
    requires rule == Endl || rule == Literal("<<", "+")
    ensures Rewrite(rule, None, "endl") == "endl"
  {
    var t := "endl";
    assert MatchAt(rule, None, t).None? by {
      assert t[0] != '<';
    }
    forall i | 1 <= i < |t|
      ensures MatchAt(rule, Some(t[i - 1]), t[i..]).None?
    {
      assert t[i..][0] == t[i] != '<';
    }
    RewriteKeepsUnmatched(rule, None, t);
  }

  /** Two named arguments come out as their names joined by ", ". */
  lemma CleanArgsOfTwo(s: string, a: string, b: string)
    requires SplitOn(s, ',') == [a, b]
    requires ArgName(a) != "" && ArgName(b) != ""
    ensures CleanArgs(s) == ArgName(a) + ", " + ArgName(b)
  {
    ArgNamesOfTwo(a, b);
    JoinArgsOfTwo(ArgName(a), ArgName(b));
  }

  lemma JoinArgsOfTwo(x: string, y: string)
    ensures JoinArgs([x, y]) == x + ", " + y
  {
    assert [x, y][1..] == [y];
  }

  lemma ArgNamesOfTwo(a: string, b: string)
    requires ArgName(a) != "" && ArgName(b) != ""
    ensures ArgNames([a, b]) == [ArgName(a), ArgName(b)]
  {
    DropBlankTwo(MapArgName([a, b]), ArgName(a), ArgName(b));
  }

  lemma DropBlankTwo(xs: seq<string>, x: string, y: string)
    requires |xs| == 2 && xs[0] == x && xs[1] == y && x != "" && y != ""
    ensures DropBlank(xs) == [x, y]
  {
    DropBlankNone(xs);
  }

  /** The header comment's own example: the arguments `vector<int> nums, int i` become `nums, i`. */
  lemma ExampleCleanArgs()
    ensures CleanArgs("vector<int> nums, int i") == "nums, i"
  {
    ExamplePieces();
    ExampleFirstName();
    ExampleSecondName();
    CleanArgsOfTwo("vector<int> nums, int i", "vector<int> nums", " int i");
    ExampleJoined();
  }

  lemma ExampleJoined()
    ensures "nums" + ", " + "i" == "nums, i"
  {
    assert "nums, i" == ['n', 'u', 'm', 's', ',', ' ', 'i'];
  }

  /** A header without arguments gets an empty parameter list. */
  lemma CleanArgsEmpty()
    ensures CleanArgs("") == ""
  {
    SplitOnNone("", ',');
    assert ArgName("") == "";
    assert MapArgName([""]) == [""];
    assert DropBlank([""]) == [];
  }

  /** The argument list of the example header splits into its two arguments. */
  lemma ExamplePieces()
    ensures SplitOn("vector<int> nums, int i", ',') == ["vector<int> nums", " int i"]
  {
    var first := "vector<int> nums";
    var second := " int i";
    assert "vector<int> nums, int i" == first + [','] + second;
    SplitOnPiece(first, second, ',');
    SplitOnNone(second, ',');
  }

  lemma LastWordStep(s: string, c: char)
    requires !IsSpace(c) && c != '&'
    ensures LastWord(s + [c]) == LastWord(s) + [c]
  {
    assert (s + [c])[..|s|] == s;
  }

  lemma LastWordAfterSpace(s: string)
    requires |s| > 0 && IsSpace(s[|s| - 1])
    ensures LastWord(s) == ""
  {
  }

  /** A typed argument keeps only its name: `vector<int> nums` gives `nums`. */
  lemma ExampleFirstName()
    ensures ArgName("vector<int> nums") == "nums"
  {
    ExampleFirstTrim();
    ExampleFirstLastWord();
  }

  lemma ExampleFirstTrim()
    ensures Trim("vector<int> nums") == "vector<int> nums"
  {
    var first := "vector<int> nums";
    assert SpanSpaces(first) == 0;
    assert TrimEndAt(first, 16, 0) == 16;
  }

  lemma ExampleFirstLastWord()
    ensures LastWord("vector<int> nums") == "nums"
  {
    var head := "vector<int> ";
    LastWordAfterSpace(head);
    LastWordStep(head, 'n');
    var h1 := head + ['n'];
    assert LastWord(h1) == "n";
    LastWordStep(h1, 'u');
    var h2 := h1 + ['u'];
    assert LastWord(h2) == "nu";
    LastWordStep(h2, 'm');
    var h3 := h2 + ['m'];
    assert LastWord(h3) == "num";
    LastWordStep(h3, 's');
    assert "vector<int> nums" == h3 + ['s'];
  }

  /** Surrounding blanks are trimmed first: ` int i` gives `i`. */
  lemma ExampleSecondName()
    ensures ArgName(" int i") == "i"
  {
    var second := " int i";
    assert SpanSpaces(second[1..]) == 0;
    assert SpanSpaces(second) == 1;
    assert TrimEndAt(second, 6, 1) == 6;
    assert Trim(second) == "int i";
    LastWordAfterSpace("int ");
    LastWordStep("int ", 'i');
    assert "int i" == "int " + ['i'];
  }

  /** A piece without the separator, then the separator, splits off as the first piece. */
  lemma {:induction false} SplitOnPiece(a: string, b: string, c: char)
    requires c !in a
    ensures SplitOn(a + [c] + b, c) == [a] + SplitOn(b, c)
    decreases |a|
  {
    if |a| == 0 {
      assert a + [c] + b == [c] + b;
      assert ([c] + b)[1..] == b;
    } else {
      SplitOnPiece(a[1..], b, c);
      assert (a + [c] + b)[1..] == a[1..] + [c] + b;
      assert a == [a[0]] + a[1..];
    }
  }

  /** Text without the separator is a single piece. */
  lemma {:induction false} SplitOnNone(a: string, c: char)
    requires c !in a
    ensures SplitOn(a, c) == [a]
    decreases |a|
  {
    if |a| > 0 {
      SplitOnNone(a[1..], c);
      assert a == [a[0]] + a[1..];
    }
  }
}
