/**
 * The driver the Run button adds to the user's C++ before transpiling it
 * (main.js, the `btnRun` handler): a few declarations built from the input
 * box, then a call of the algorithm's root function, spliced in under the
 * `// Driver` comment.
 */
module Driver {
  import opened Wrappers
  import opened Text
  import opened Transpiler

  /** The fields of a registry entry the driver reads. */
  datatype Algo = Algo(
    inputType: string,
    params: seq<string>,
    rootFn: string,
    extraArgs: Option<seq<string>>)

  /** The input types the handler distinguishes; any other string gets no driver. */
  datatype InputKind = ArrayInput | NumberInput | StringInput | MultiNumberInput | OtherInput

  function KindOf(inputType: string): (k: InputKind)
    ensures k == ArrayInput <==> inputType == "array"
    ensures k == NumberInput <==> inputType == "number"
    ensures k == StringInput <==> inputType == "string"
    ensures k == MultiNumberInput <==> inputType == "multi-number"
  {
    if inputType == "array" then ArrayInput
    else if inputType == "number" then NumberInput
    else if inputType == "string" then StringInput
    else if inputType == "multi-number" then MultiNumberInput
    else OtherInput
  }

  /** `algo.params[0]` in a template literal: `undefined` when there is no parameter. */
  function FirstParam(params: seq<string>): (p: string)
    ensures |params| > 0 ==> p == params[0]
  {
    if |params| > 0 then params[0] else "undefined"
  }

  /** `parts[i] || 0`: the i-th trimmed input part, or `0` when it is empty or missing. */
  function PartOrZero(parts: seq<string>, i: nat): (v: string)
    ensures v != ""
    ensures i < |parts| && parts[i] != "" ==> v == parts[i]
  {
    if i < |parts| && parts[i] != "" then parts[i] else "0"
  }

  /** `inputVal.split(',').map(x => x.trim())`. */
  function Parts(input: string): (parts: seq<string>)
    ensures |parts| == |SplitOn(input, ',')|
    ensures forall i :: 0 <= i < |parts| ==> parts[i] == Trim(SplitOn(input, ',')[i])
  {
    var pieces := SplitOn(input, ',');
    seq(|pieces|, i requires 0 <= i < |pieces| => Trim(pieces[i]))
  }

  /** The call of the root function with the given arguments. */
  function CallLine(rootFn: string, args: seq<string>): string
  {
    rootFn + "(" + JoinArgs(args) + ");"
  }

  /** The declaration of the i-th parameter of a `multi-number` algorithm. */
  function NumberLine(params: seq<string>, parts: seq<string>, i: nat): string
    requires i < |params|
  {
    "int " + params[i] + " = " + PartOrZero(parts, i) + ";"
  }

  /** The declarations of the first `k` parameters of a `multi-number` algorithm. */
  function NumberLines(params: seq<string>, parts: seq<string>, k: nat): (lines: seq<string>)
    requires k <= |params|
    ensures |lines| == k
    ensures forall i :: 0 <= i < k ==> lines[i] == NumberLine(params, parts, i)
  {
    if k == 0 then [] else NumberLines(params, parts, k - 1) + [NumberLine(params, parts, k - 1)]
  }

  /**
   * The lines of the driver code, one per statement, for each kind of
   * input; an input type the handler does not know gives no code.
   */
  function DriverLines(algo: Algo, input: string): (lines: seq<string>)
    ensures |lines| >= 1
  {
    match KindOf(algo.inputType)
    case ArrayInput =>
      var arrName := FirstParam(algo.params);
      var sizeLine := if |algo.params| > 1 && algo.params[1] == "n"
        then ["int n = " + arrName + ".size();"] else [];
      ["vector<int> " + arrName + " = {" + input + "};"] + sizeLine +
        [CallLine(algo.rootFn, algo.params + algo.extraArgs.GetOr([]))]
    case NumberInput =>
      var p := FirstParam(algo.params);
      ["int " + p + " = " + input + ";", algo.rootFn + "(" + p + ");"]
    case StringInput =>
      var p := FirstParam(algo.params);
      ["string " + p + " = \"" + input + "\";", algo.rootFn + "(" + p + ");"]
    case MultiNumberInput =>
      NumberLines(algo.params, Parts(input), |algo.params|) + [CallLine(algo.rootFn, algo.params)]
    case OtherInput => [""]
  }

  /** The driver code: its lines separated by newlines. */
  function DriverCode(algo: Algo, input: string): string
  {
    JoinOn(DriverLines(algo, input), '\n')
  }

  /** Each line followed by a newline, as `driverCode +=` builds them. */
  function Terminated(lines: seq<string>): (s: string)
  {
    if |lines| == 0 then "" else lines[0] + "\n" + Terminated(lines[1..])
  }

  lemma {:induction false} TerminatedSnoc(lines: seq<string>, l: string)
    ensures Terminated(lines + [l]) == Terminated(lines) + l + "\n"
    decreases |lines|
  {
    if |lines| > 0 {
      assert (lines + [l])[1..] == lines[1..] + [l];
      TerminatedSnoc(lines[1..], l);
    } else {
      assert [l][1..] == [];
    }
  }

  /** Terminated lines followed by a last, unterminated one are the lines joined by newlines. */
  lemma {:induction false} TerminatedThenLast(lines: seq<string>, last: string)
    ensures Terminated(lines) + last == JoinOn(lines + [last], '\n')
    decreases |lines|
  {
    if |lines| > 0 {
      assert (lines + [last])[1..] == lines[1..] + [last];
      TerminatedThenLast(lines[1..], last);
    }
  }

  /**
   * The Run button's driver builder: the statements appended one by one to
   * `driverCode`, the parameters of a `multi-number` algorithm in a loop.
   */
  method SynthesizeDriver(algo: Algo, inputVal: string) returns (driverCode: string)
    ensures driverCode == DriverCode(algo, inputVal)
  {
    var kind := KindOf(algo.inputType);
    if kind == ArrayInput {
      driverCode := SynthesizeArray(algo, inputVal);
    } else if kind == NumberInput {
      driverCode := SynthesizeScalar(algo, inputVal, "int ", "");
    } else if kind == StringInput {
      driverCode := SynthesizeScalar(algo, inputVal, "string ", "\"");
    } else if kind == MultiNumberInput {
      driverCode := SynthesizeMultiNumber(algo, inputVal);
    } else {
      driverCode := "";
    }
  }

  /** The `array` branch: the vector, the optional size line, the call. */
  method SynthesizeArray(algo: Algo, inputVal: string) returns (driverCode: string)
    requires KindOf(algo.inputType) == ArrayInput
    ensures driverCode == DriverCode(algo, inputVal)
  {
    var arrName := FirstParam(algo.params);
    var declLine := "vector<int> " + arrName + " = {" + inputVal + "};";
    driverCode := "" + declLine + "\n";
    ghost var done := [declLine];
    assert driverCode == Terminated(done);
    if |algo.params| > 1 && algo.params[1] == "n" {
      var sizeLine := "int n = " + arrName + ".size();";
      driverCode := driverCode + sizeLine + "\n";
      TerminatedSnoc(done, sizeLine);
      done := done + [sizeLine];
    }
    var args := algo.params + algo.extraArgs.GetOr([]);
    driverCode := driverCode + CallLine(algo.rootFn, args);
    TerminatedThenLast(done, CallLine(algo.rootFn, args));
  }

  /**
   * The `number` and `string` branches: one declaration of the first
   * parameter (typed `int` or `string`, the string value in quotes), then
   * the call.
   */
  method SynthesizeScalar(algo: Algo, inputVal: string, typeName: string, quote: string) returns (driverCode: string)
    requires (KindOf(algo.inputType) == NumberInput && typeName == "int " && quote == "") ||
      (KindOf(algo.inputType) == StringInput && typeName == "string " && quote == "\"")
    ensures driverCode == DriverCode(algo, inputVal)
  {
    var paramName := FirstParam(algo.params);
    var declLine := typeName + paramName + " = " + quote + inputVal + quote + ";";
    driverCode := "" + declLine + "\n";
    var callLine := algo.rootFn + "(" + paramName + ");";
    driverCode := driverCode + callLine;
    ScalarLines(algo, inputVal, typeName, quote);
    TerminatedThenLast([declLine], callLine);
  }

  lemma ScalarLines(algo: Algo, input: string, typeName: string, quote: string)
    requires (KindOf(algo.inputType) == NumberInput && typeName == "int " && quote == "") ||
      (KindOf(algo.inputType) == StringInput && typeName == "string " && quote == "\"")
    ensures DriverLines(algo, input) == [typeName + FirstParam(algo.params) + " = " + quote + input + quote + ";",
      algo.rootFn + "(" + FirstParam(algo.params) + ");"]
  {
    var p := FirstParam(algo.params);
    if KindOf(algo.inputType) == NumberInput {
      assert typeName + p + " = " + quote + input + quote + ";" == "int " + p + " = " + input + ";";
    } else {
      assert typeName + p + " = " + quote + input + quote + ";" == "string " + p + " = \"" + input + "\";";
    }
  }

  /** The `multi-number` branch: a loop declaring each parameter, then the call. */
  method SynthesizeMultiNumber(algo: Algo, inputVal: string) returns (driverCode: string)
    requires KindOf(algo.inputType) == MultiNumberInput
    ensures driverCode == DriverCode(algo, inputVal)
  {
    driverCode := "";
    var parts := Parts(inputVal);
    var i := 0;
    while i < |algo.params|
      invariant 0 <= i <= |algo.params|
      invariant driverCode == Terminated(NumberLines(algo.params, parts, i))
    {
      TerminatedSnoc(NumberLines(algo.params, parts, i), NumberLine(algo.params, parts, i));
      driverCode := driverCode + NumberLine(algo.params, parts, i) + "\n";
      i := i + 1;
    }
    driverCode := driverCode + CallLine(algo.rootFn, algo.params);
    TerminatedThenLast(NumberLines(algo.params, parts, i), CallLine(algo.rootFn, algo.params));
  }

  // --- What the driver says, input type by input type ---

  /** A `number` algorithm gets `int p = v;` and then the call `root(p);`. */
  lemma NumberDriver(algo: Algo, input: string)
    requires algo.inputType == "number" && |algo.params| >= 1
    ensures DriverCode(algo, input) ==
      "int " + algo.params[0] + " = " + input + ";\n" + algo.rootFn + "(" + algo.params[0] + ");"
  {
    var lines := DriverLines(algo, input);
    assert lines[1..] == [algo.rootFn + "(" + algo.params[0] + ");"];
    assert JoinOn(lines, '\n') == lines[0] + "\n" + lines[1];
  }

  /**
   * The size line `int n = arr.size();` is there exactly when the second
   * parameter is named `n`; either way the driver ends with the call of the
   * root function on all parameters and extra arguments.
   */
  lemma ArrayDriver(algo: Algo, input: string)
    requires algo.inputType == "array"
    ensures var lines := DriverLines(algo, input);
      (|lines| == 3 <==> |algo.params| > 1 && algo.params[1] == "n") &&
      (|lines| == 3 ==> lines[1] == "int n = " + algo.params[0] + ".size();") &&
      lines[0] == "vector<int> " + FirstParam(algo.params) + " = {" + input + "};" &&
      lines[|lines| - 1] == CallLine(algo.rootFn, algo.params + algo.extraArgs.GetOr([]))
  {
  }

  /**
   * A `multi-number` algorithm declares each parameter in order, with the
   * matching trimmed comma part of the input, or `0` when that part is
   * missing or blank; then it calls the root function on all of them.
   */
  lemma MultiNumberDriver(algo: Algo, input: string)
    requires algo.inputType == "multi-number"
    ensures var lines := DriverLines(algo, input);
      var pieces := SplitOn(input, ',');
      |lines| == |algo.params| + 1 &&
      lines[|algo.params|] == CallLine(algo.rootFn, algo.params) &&
      (forall i :: 0 <= i < |algo.params| && (i >= |pieces| || Trim(pieces[i]) == "") ==>
        lines[i] == "int " + algo.params[i] + " = 0;") &&
      (forall i :: 0 <= i < |algo.params| && i < |pieces| && Trim(pieces[i]) != "" ==>
        lines[i] == "int " + algo.params[i] + " = " + Trim(pieces[i]) + ";")
  {
  }

  /** Every value a `multi-number` driver assigns is non-empty and has no surrounding blanks. */
  lemma MultiNumberValuesTrimmed(algo: Algo, input: string, i: nat)
    requires algo.inputType == "multi-number" && i < |algo.params|
    ensures var v := PartOrZero(Parts(input), i);
      v != "" && !IsSpace(v[0]) && !IsSpace(v[|v| - 1])
  {
  }

  /** An unknown input type (such as `none`) gets no driver code at all. */
  lemma UnknownInputNoDriver(algo: Algo, input: string)
    requires algo.inputType !in {"array", "number", "string", "multi-number"}
    ensures DriverCode(algo, input) == ""
  {
  }

  /**
   * When no input field holds a newline, the driver has one statement per
   * line: splitting it at newlines gives back exactly its lines.
   */
  lemma DriverLinesSplit(algo: Algo, input: string)
    requires '\n' !in input && '\n' !in algo.rootFn
    requires forall i :: 0 <= i < |algo.params| ==> '\n' !in algo.params[i]
    requires algo.extraArgs.Some? ==> forall i :: 0 <= i < |algo.extraArgs.value| ==> '\n' !in algo.extraArgs.value[i]
    ensures SplitOn(DriverCode(algo, input), '\n') == DriverLines(algo, input)
  {
    DriverLinesOneLine(algo, input);
    SplitJoinOn(DriverLines(algo, input), '\n');
  }

  lemma DriverLinesOneLine(algo: Algo, input: string)
    requires '\n' !in input && '\n' !in algo.rootFn
    requires forall i :: 0 <= i < |algo.params| ==> '\n' !in algo.params[i]
    requires algo.extraArgs.Some? ==> forall i :: 0 <= i < |algo.extraArgs.value| ==> '\n' !in algo.extraArgs.value[i]
    ensures forall i :: 0 <= i < |DriverLines(algo, input)| ==> '\n' !in DriverLines(algo, input)[i]
  {
    var kind := KindOf(algo.inputType);
    if kind == ArrayInput {
      ArrayLinesOneLine(algo, input);
    } else if kind == MultiNumberInput {
      MultiNumberLinesOneLine(algo, input);
    } else {
      assert '\n' !in FirstParam(algo.params);
    }
  }

  lemma ArrayLinesOneLine(algo: Algo, input: string)
    requires KindOf(algo.inputType) == ArrayInput
    requires '\n' !in input && '\n' !in algo.rootFn
    requires forall i :: 0 <= i < |algo.params| ==> '\n' !in algo.params[i]
    requires algo.extraArgs.Some? ==> forall i :: 0 <= i < |algo.extraArgs.value| ==> '\n' !in algo.extraArgs.value[i]
    ensures forall i :: 0 <= i < |DriverLines(algo, input)| ==> '\n' !in DriverLines(algo, input)[i]
  {
    assert '\n' !in FirstParam(algo.params);
    var args := algo.params + algo.extraArgs.GetOr([]);
    assert forall i :: 0 <= i < |args| ==> '\n' !in args[i];
    JoinArgsOneLine(args);
  }

  lemma MultiNumberLinesOneLine(algo: Algo, input: string)
    requires KindOf(algo.inputType) == MultiNumberInput
    requires '\n' !in input && '\n' !in algo.rootFn
    requires forall i :: 0 <= i < |algo.params| ==> '\n' !in algo.params[i]
    ensures forall i :: 0 <= i < |DriverLines(algo, input)| ==> '\n' !in DriverLines(algo, input)[i]
  {
    JoinArgsOneLine(algo.params);
    var parts := Parts(input);
    SplitOnChars(input, ',', '\n');
    forall i | 0 <= i < |parts| ensures '\n' !in parts[i] {
      TrimChars(SplitOn(input, ',')[i], '\n');
    }
    forall i | 0 <= i < |algo.params| ensures '\n' !in NumberLine(algo.params, parts, i) {
      assert '\n' !in PartOrZero(parts, i);
    }
  }

  // --- Splicing the driver into the program ---

  /** The comment under which the driver goes. */
  const Marker: string := "// Driver"

  /** The position of the first occurrence of `p` in `s`, if there is one. */
  function Find(s: string, p: string): (k: Option<nat>)
    ensures k.Some? ==> (k.value + |p| <= |s| && StartsWith(s[k.value..], p) &&
      forall j :: 0 <= j < k.value ==> !StartsWith(s[j..], p))
    ensures k.None? ==> forall j :: 0 <= j <= |s| ==> !StartsWith(s[j..], p)
    decreases |s|
  {
    if StartsWith(s, p) then Some(0)
    else if |s| == 0 then None
    else match Find(s[1..], p)
      case None =>
        assert forall j :: 1 <= j <= |s| ==> s[j..] == s[1..][j - 1..];
        None
      case Some(k) =>
        assert forall j :: 1 <= j <= k + 1 ==> s[j..] == s[1..][j - 1..];
        Some(k + 1)
  }

  /**
   * `rawCpp.split('// Driver')`, as far as the handler uses it: the text
   * before the first marker when there is one (the split has more than one
   * piece), and nothing otherwise.
   */
  function BeforeMarker(raw: string): (before: Option<string>)
    ensures before.Some? ==> StartsWith(raw, before.value) && StartsWith(raw[|before.value|..], Marker)
    ensures before.Some? ==> forall j :: 0 <= j < |before.value| ==> !StartsWith(raw[j..], Marker)
    ensures before.None? ==> forall j :: 0 <= j <= |raw| ==> !StartsWith(raw[j..], Marker)
  {
    match Find(raw, Marker)
    case Some(k) => Some(raw[..k])
    case None => None
  }

  /** The program handed to the transpiler: the user's code with the driver spliced in. */
  function InjectDriver(raw: string, driverCode: string): string
  {
    match BeforeMarker(raw)
    case Some(before) => before + "\n" + Marker + "\n" + driverCode
    case None => raw + "\n\n" + Marker + "\n" + driverCode
  }

  /** The text the injected marker follows: what the user wrote before the driver, with a newline. */
  function UserPart(raw: string): string
  {
    match BeforeMarker(raw)
    case Some(before) => before
    case None => raw + "\n"
  }

  lemma MarkerOneLine()
    ensures forall i :: 0 <= i < |Marker| ==> Marker[i] != '\n'
  {
  }

  /** A text with no marker in it keeps having none up to a newline placed after it. */
  lemma NoMarkerBeforeNewline(u: string, rest: string)
    requires forall j :: 0 <= j < |u| ==> !StartsWith(u[j..], Marker)
    ensures forall j :: 0 <= j <= |u| ==> !StartsWith((u + "\n" + rest)[j..], Marker)
  {
    var t := u + "\n" + rest;
    MarkerOneLine();
    forall j | 0 <= j <= |u| ensures !StartsWith(t[j..], Marker) {
      if j + |Marker| <= |u| {
        assert t[j..][..|Marker|] == u[j..][..|Marker|];
      } else if j + |Marker| <= |t| {
        assert t[j..][..|Marker|][|u| - j] == '\n';
      }
    }
  }

  /** The user's part of the program never contains the marker. */
  lemma UserPartHasNoMarker(raw: string)
    ensures forall j :: 0 <= j < |UserPart(raw)| ==> !StartsWith(UserPart(raw)[j..], Marker)
  {
    var u := UserPart(raw);
    MarkerOneLine();
    match BeforeMarker(raw)
    case None =>
      assert u == raw + "\n";
      forall j | 0 <= j < |u| ensures !StartsWith(u[j..], Marker) {
        if j + |Marker| <= |raw| {
          assert u[j..][..|Marker|] == raw[j..][..|Marker|];
        } else if j + |Marker| <= |u| {
          assert u[j..][..|Marker|][|raw| - j] == '\n';
        }
      }
    case Some(before) =>
      assert u == before == raw[..|u|];
      forall j | 0 <= j < |u| ensures !StartsWith(u[j..], Marker) {
        if j + |Marker| <= |u| {
          assert u[j..][..|Marker|] == raw[j..][..|Marker|];
        }
      }
  }

  /**
   * The marker placed before the driver is the first one in the program
   * handed on, and the driver code follows right after it.
   */
  lemma InjectedMarkerIsFirst(raw: string, driverCode: string)
    ensures var r := InjectDriver(raw, driverCode);
      var k := |UserPart(raw)| + 1;
      Find(r, Marker) == Some(k) && r[k + |Marker|..] == "\n" + driverCode
  {
    var u := UserPart(raw);
    var tail := "\n" + driverCode;
    InjectAfterUserPart(raw, driverCode);
    assert Marker + "\n" + driverCode == Marker + tail;
    UserPartHasNoMarker(raw);
    FirstMarkerAfter(u, tail);
  }

  /** A marker placed after a newline that ends a marker-free text is the first one. */
  lemma FirstMarkerAfter(u: string, tail: string)
    requires forall j :: 0 <= j < |u| ==> !StartsWith(u[j..], Marker)
    ensures var r := u + "\n" + (Marker + tail);
      Find(r, Marker) == Some(|u| + 1) && r[|u| + 1 + |Marker|..] == tail
  {
    var rest := Marker + tail;
    var r := u + "\n" + rest;
    NoMarkerBeforeNewline(u, rest);
    assert r[|u| + 1..] == rest;
    assert rest[..|Marker|] == Marker;
    FindAt(r, Marker, |u| + 1);
    assert r[|u| + 1 + |Marker|..] == rest[|Marker|..];
  }

  /** The program handed on is the user's part, a newline, the marker line and the driver. */
  lemma InjectAfterUserPart(raw: string, driverCode: string)
    ensures InjectDriver(raw, driverCode) == UserPart(raw) + "\n" + (Marker + "\n" + driverCode)
  {
  }

  /** An occurrence with none before it is what `Find` reports. */
  lemma FindAt(s: string, p: string, k: nat)
    requires k + |p| <= |s| && StartsWith(s[k..], p)
    requires forall j :: 0 <= j < k ==> !StartsWith(s[j..], p)
    ensures Find(s, p) == Some(k)
  {
  }

  /** The user's part of an injected program is the user's part of the original, one newline longer. */
  lemma UserPartOfInjected(raw: string, driverCode: string)
    ensures UserPart(InjectDriver(raw, driverCode)) == UserPart(raw) + "\n"
  {
    var u := UserPart(raw);
    var r := InjectDriver(raw, driverCode);
    InjectedMarkerIsFirst(raw, driverCode);
    InjectAfterUserPart(raw, driverCode);
    assert BeforeMarker(r) == Some(r[..|u| + 1]);
    assert r[..|u| + 1] == u + "\n";
  }

  /**
   * Running again with the injected program replaces the driver: which
   * driver the program already had makes no difference to the result.
   */
  lemma DriverReplaced(raw: string, old1: string, old2: string, driverCode: string)
    ensures InjectDriver(InjectDriver(raw, old1), driverCode) ==
      InjectDriver(InjectDriver(raw, old2), driverCode)
  {
    UserPartOfInjected(raw, old1);
    UserPartOfInjected(raw, old2);
    InjectAfterUserPart(InjectDriver(raw, old1), driverCode);
    InjectAfterUserPart(InjectDriver(raw, old2), driverCode);
  }
}
