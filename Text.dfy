/**
 * The pieces of JavaScript string and regular-expression behaviour the
 * transpiler depends on: the `\s`, `\w` and `.` character classes, maximal
 * runs of them, `trim`, prefix and substring tests, and `split` and `join` on
 * one character.
 */
module Text {
  import opened Wrappers

  /** `\s`, which is also the set `String.prototype.trim` strips: the ECMAScript WhiteSpace and LineTerminator characters. */
  predicate IsSpace(c: char)
  {
    c == '\t' || c == '\n' || c == '\U{0B}' || c == '\U{0C}' || c == '\r' || c == ' ' ||
    c == '\U{A0}' || c == '\U{1680}' || ('\U{2000}' <= c <= '\U{200A}') ||
    c == '\U{2028}' || c == '\U{2029}' || c == '\U{202F}' || c == '\U{205F}' ||
    c == '\U{3000}' || c == '\U{FEFF}'
  }

  /** The line terminators, which `.` does not match. */
  predicate IsLineTerm(c: char)
  {
    c == '\n' || c == '\r' || c == '\U{2028}' || c == '\U{2029}'
  }

  /** `\w`. */
  predicate IsWordChar(c: char)
  {
    ('a' <= c <= 'z') || ('A' <= c <= 'Z') || ('0' <= c <= '9') || c == '_'
  }

  /** The length of the maximal run of `\s` at the start of `t` (what a greedy `\s*` takes). */
  function SpanSpaces(t: string): (n: nat)
    ensures n <= |t|
    ensures forall i :: 0 <= i < n ==> IsSpace(t[i])
    ensures n < |t| ==> !IsSpace(t[n])
  {
    if |t| == 0 || !IsSpace(t[0]) then 0 else 1 + SpanSpaces(t[1..])
  }

  /** The length of the maximal run of `\w` at the start of `t` (what a greedy `\w+` takes). */
  function SpanWord(t: string): (n: nat)
    ensures n <= |t|
    ensures forall i :: 0 <= i < n ==> IsWordChar(t[i])
    ensures n < |t| ==> !IsWordChar(t[n])
  {
    if |t| == 0 || !IsWordChar(t[0]) then 0 else 1 + SpanWord(t[1..])
  }

  /**
   * Where a lazy `.*?` followed by the character `c` stops: the first `c`
   * in `t` that no line terminator precedes, if there is one.
   */
  function LazyTo(t: string, c: char): (k: Option<nat>)
    ensures k.Some? ==> (k.value < |t| && t[k.value] == c &&
      forall j :: 0 <= j < k.value ==> t[j] != c && !IsLineTerm(t[j]))
    ensures k.None? ==> forall j :: 0 <= j < |t| && t[j] == c ==>
      exists i :: 0 <= i < j && IsLineTerm(t[i])
  {
    if |t| == 0 then None
    else if t[0] == c then Some(0)
    else if IsLineTerm(t[0]) then None
    else match LazyTo(t[1..], c)
      case None =>
        assert forall j :: 1 <= j < |t| && t[j] == c ==> t[1..][j - 1] == c;
        None
      case Some(k) => Some(k + 1)
  }

  /** `s` holds `\s` characters only. */
  predicate AllSpaces(s: string)
  {
    forall j :: 0 <= j < |s| ==> IsSpace(s[j])
  }

  /** `s` holds no line terminator: `.` matches each of its characters. */
  predicate OneLine(s: string)
  {
    forall j :: 0 <= j < |s| ==> !IsLineTerm(s[j])
  }

  /** A run of `n` spaces that a non-space (or the end) follows is the whole run `SpanSpaces` measures. */
  lemma SpanSpacesAt(t: string, n: nat)
    requires n <= |t| && AllSpaces(t[..n]) && (n < |t| ==> !IsSpace(t[n]))
    ensures SpanSpaces(t) == n
  {
  }

  /** A `c` that no line terminator precedes stops the lazy run, there or earlier. */
  lemma LazyToReaches(t: string, c: char, j: nat)
    requires j < |t| && t[j] == c && OneLine(t[..j])
    ensures LazyTo(t, c).Some? && LazyTo(t, c).value <= j
  {
  }

  /** The run the lazy search passes over holds neither `c` nor a line terminator. */
  lemma LazyToRun(t: string, c: char)
    requires LazyTo(t, c).Some?
    ensures c !in t[..LazyTo(t, c).value] && OneLine(t[..LazyTo(t, c).value])
  {
    var k := LazyTo(t, c).value;
    assert forall j :: 0 <= j < k ==> t[..k][j] == t[j];
  }

  /** A slice of a prefix of `t` is the same slice of `t`, and a prefix of the suffix where it starts. */
  lemma SliceOfPrefix(t: string, k: nat, a: nat, b: nat)
    requires a <= b <= k <= |t|
    ensures t[..k][a..b] == t[a..b] == t[a..][..b - a]
  {
  }

  predicate StartsWith(s: string, p: string)
  {
    |p| <= |s| && s[..|p|] == p
  }

  /** `s` contains `p` somewhere. */
  predicate Occurs(s: string, p: string)
    decreases |s|
  {
    StartsWith(s, p) || (|s| > 0 && Occurs(s[1..], p))
  }

  /** `s.trim()`: without leading and trailing `\s`. */
  function Trim(s: string): (r: string)
    ensures |r| <= |s|
    ensures |r| > 0 ==> !IsSpace(r[0]) && !IsSpace(r[|r| - 1])
    ensures r == "" <==> forall i :: 0 <= i < |s| ==> IsSpace(s[i])
    ensures exists a, b :: (0 <= a <= b <= |s| && r == s[a..b] &&
      (forall i :: 0 <= i < a ==> IsSpace(s[i])) && (forall i :: b <= i < |s| ==> IsSpace(s[i])))
  {
    var a := SpanSpaces(s);
    var b := TrimEndAt(s, |s|, a);
    s[a..b]
  }

  /** The end of `s[..e]` once trailing `\s` is dropped, never below `a`. */
  function TrimEndAt(s: string, e: nat, a: nat): (b: nat)
    requires a <= e <= |s|
    requires a < |s| ==> !IsSpace(s[a])
    ensures a <= b <= e
    ensures forall i :: b <= i < e ==> IsSpace(s[i])
    ensures b > a ==> !IsSpace(s[b - 1])
    ensures a < e ==> a < b
    decreases e
  {
    if e == a || !IsSpace(s[e - 1]) then e else TrimEndAt(s, e - 1, a)
  }

  /** `s.split(c)`: the pieces between the occurrences of `c`, at least one. */
  function SplitOn(s: string, c: char): (parts: seq<string>)
    ensures |parts| >= 1
    ensures forall i :: 0 <= i < |parts| ==> c !in parts[i]
    decreases |s|
  {
    if |s| == 0 then [""]
    else
      var rest := SplitOn(s[1..], c);
      if s[0] == c then [""] + rest
      else [[s[0]] + rest[0]] + rest[1..]
  }

  /** `lines.join(c)`. */
  function JoinOn(lines: seq<string>, c: char): string
    requires |lines| >= 1
    decreases |lines|
  {
    if |lines| == 1 then lines[0] else lines[0] + [c] + JoinOn(lines[1..], c)
  }

  /** Splitting and joining again gives the text back. */
  lemma {:induction false} JoinSplitOn(s: string, c: char)
    ensures JoinOn(SplitOn(s, c), c) == s
    decreases |s|
  {
    if |s| > 0 {
      JoinSplitOn(s[1..], c);
      var rest := SplitOn(s[1..], c);
      assert s == [s[0]] + s[1..];
      if s[0] != c && |rest| > 1 {
        assert JoinOn(rest, c) == rest[0] + [c] + JoinOn(rest[1..], c);
      }
    }
  }

  lemma {:induction false} SplitJoinOn(lines: seq<string>, c: char)
    requires |lines| >= 1
    requires forall i :: 0 <= i < |lines| ==> c !in lines[i]
    ensures SplitOn(JoinOn(lines, c), c) == lines
    decreases |lines|, |lines[0]|
  {
    if |lines[0]| > 0 {
      var l := lines[0];
      var tail := [l[1..]] + lines[1..];
      assert l == [l[0]] + l[1..];
      SplitJoinOn(tail, c);
      assert JoinOn(lines, c) == [l[0]] + JoinOn(tail, c) by {
        if |lines| > 1 {
          assert JoinOn(tail, c) == l[1..] + [c] + JoinOn(lines[1..], c);
        }
      }
      assert ([l[0]] + JoinOn(tail, c))[1..] == JoinOn(tail, c);
    } else if |lines| > 1 {
      SplitJoinOn(lines[1..], c);
      assert JoinOn(lines, c) == [c] + JoinOn(lines[1..], c);
      assert ([c] + JoinOn(lines[1..], c))[1..] == JoinOn(lines[1..], c);
    }
  }

  /** Every character of a piece of `s.split(c)` is a character of `s`. */
  lemma {:induction false} SplitOnChars(s: string, c: char, x: char)
    requires x !in s
    ensures forall i :: 0 <= i < |SplitOn(s, c)| ==> x !in SplitOn(s, c)[i]
    decreases |s|
  {
    if |s| > 0 {
      SplitOnChars(s[1..], c, x);
    }
  }

  /** `s.trim()` keeps only characters of `s`. */
  lemma TrimChars(s: string, x: char)
    requires x !in s
    ensures x !in Trim(s)
  {
  }
}
