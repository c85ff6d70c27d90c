/**
 * The hand-instrumented factorial of src/algos/Factorial.js: a recursive
 * procedure that reports each activation to the tracer (`call`, `set`,
 * `return`) while it computes `n!`.
 *
 * `FactState(s, n)` is the session one invocation of `factorial(n)` leaves
 * behind when it starts in session `s`; the method is proved to leave the
 * tracer exactly so, and what the resulting timeline holds is proved about
 * that function. The `step` reports change no session state and appear in
 * no state function.
 */
module Factorial {
  import opened Wrappers
  import opened Values
  import opened Frames
  import opened Events
  import opened TracerSpec
  import opened Tracer

  /** The value the procedure returns: 1 for n <= 1, otherwise n times the value for n - 1. */
  function Fact(n: int): (r: int)
    ensures r >= 1
    decreases if n <= 1 then 0 else n
  {
    if n <= 1 then 1 else n * Fact(n - 1)
  }

  /** The product 1 * 2 * ... * n (1 when n < 1). */
  function Product(n: int): int
    decreases if n <= 0 then 0 else n
  {
    if n <= 0 then 1 else Product(n - 1) * n
  }

  /** The procedure computes the factorial: for every n it returns the product of 1..n. */
  lemma {:induction false} FactIsProduct(n: int)
    ensures Fact(n) == Product(n)
    decreases if n <= 1 then 0 else n
  {
    if n > 1 {
      FactIsProduct(n - 1);
    }
  }

  /** How many activations `factorial(n)` makes: n of them, or one when n <= 1. */
  function Calls(n: int): (c: nat)
    ensures c >= 1
  {
    if n <= 1 then 1 else n
  }

  // --- The tracer operations of one invocation ---

  function CheckText(n: int): string
  {
    "Checking if n (" + IntToString(n) + ") <= 1"
  }

  function RecurseText(n: int): string
  {
    "Recursive call: " + IntToString(n) + " * factorial(" + IntToString(n - 1) + ")"
  }

  function ResultText(result: int): string
  {
    "Returning result: " + IntToString(result)
  }

  const BaseText: string := "Base case reached. Returning 1."

  /** The CALL that opens every invocation, recording `{ n }`. */
  function CallN(n: int): Op
  {
    CallOp("factorial", map["n" := Num(n)], Some(1))
  }

  /**
   * The close of a recursive invocation, given the value of the inner call
   * and the product: `subResult`, `result`, then the RETURN of the product.
   */
  function CloseState(s: TracerState, subResult: int, result: int): (r: TracerState)
    requires WellFormed(s)
    ensures WellFormed(r)
  {
    var withSub := Apply(s, SetOp("subResult", Num(subResult), Some(6)));
    var withResult := Apply(withSub, SetOp("result", Num(result), Some(7)));
    Apply(withResult, ReturnOp(Num(result), Some(8)))
  }

  /** The session `factorial(n)` leaves behind when started in `s`, the inner invocations included. */
  function FactState(s: TracerState, n: int): (r: TracerState)
    requires WellFormed(s)
    ensures WellFormed(r)
    decreases if n <= 1 then 0 else n
  {
    var called := Apply(s, CallN(n));
    if n <= 1 then Apply(called, ReturnOp(Num(1), Some(3)))
    else CloseState(FactState(called, n - 1), Fact(n - 1), Fact(n))
  }

  /** The session `run(n)` leaves behind: a reset, then `factorial(n)`. */
  function RunState(n: int): (r: TracerState)
    ensures WellFormed(r)
  {
    InitInv();
    FactState(Init, n)
  }

  // --- The instrumented procedure ---

  class FactorialAlgo {
    const tracer: RecursionTracer

    constructor (tracer: RecursionTracer)
      ensures this.tracer == tracer
    {
      this.tracer := tracer;
    }

    /** `factorial(n)`: the value, and the tracer advanced as the invocation's state function says. */
    method Factorial(n: int) returns (result: int)
      requires tracer.Valid()
      modifies tracer
      ensures tracer.Valid()
      ensures tracer.Abs() == FactState(old(tracer.Abs()), n)
      ensures result == Fact(n)
      decreases if n <= 1 then 0 else n, 1
    {
      var frameId := Enter(n);
      if n <= 1 {
        BaseCase();
        return 1;
      }
      result := Recurse(n);
    }

    /** The recursive branch after the opening: the step, the inner invocation, then the close. */
    method Recurse(n: int) returns (result: int)
      requires tracer.Valid() && n > 1
      modifies tracer
      ensures tracer.Valid()
      ensures tracer.Abs() == CloseState(FactState(old(tracer.Abs()), n - 1), Fact(n - 1), Fact(n))
      ensures result == Fact(n)
      decreases n, 0
    {
      tracer.Step(RecurseText(n), 5);
      var subResult := Factorial(n - 1);
      ghost var inner := tracer.Abs();
      result := Close(n, subResult);
      assert tracer.Abs() == CloseState(inner, Fact(n - 1), Fact(n));
    }

    /** The opening of every invocation: the CALL with `{ n }`, then the check step. */
    method Enter(n: int) returns (frameId: string)
      requires tracer.Valid()
      modifies tracer
      ensures tracer.Valid()
      ensures tracer.Abs() == Apply(old(tracer.Abs()), CallN(n))
      ensures frameId == FrameId(old(tracer.Abs()).frameCount)
    {
      frameId := tracer.Call("factorial", map["n" := Num(n)], Some(1));
      tracer.Step(CheckText(n), 2);
    }

    /** The base case: its step, then the RETURN of 1. */
    method BaseCase()
      requires tracer.Valid()
      modifies tracer
      ensures tracer.Valid()
      ensures tracer.Abs() == Apply(old(tracer.Abs()), ReturnOp(Num(1), Some(3)))
    {
      tracer.Step(BaseText, 3);
      tracer.Return(Num(1), Some(3));
    }

    /** The close of a recursive invocation: `subResult`, `result` = n × `subResult`, the step, the RETURN. */
    method Close(n: int, subResult: int) returns (result: int)
      requires tracer.Valid()
      modifies tracer
      ensures tracer.Valid()
      ensures tracer.Abs() == CloseState(old(tracer.Abs()), subResult, result)
      ensures result == n * subResult
    {
      tracer.Set("subResult", Num(subResult), Some(6));
      result := n * subResult;
      tracer.Set("result", Num(result), Some(7));
      tracer.Step(ResultText(result), 8);
      tracer.Return(Num(result), Some(8));
    }

    /** `run(n)`: a reset, then `factorial(n)`; the timeline is the events of the session left behind. */
    method Run(n: int) returns (timeline: seq<TraceEvent>)
      requires tracer.Valid()
      modifies tracer
      ensures tracer.Valid()
      ensures tracer.Abs() == RunState(n)
      ensures timeline == RunState(n).events
    {
      tracer.Reset();
      assert tracer.Abs() == Init;
      var _ := Factorial(n);
      assert tracer.Abs() == FactState(Init, n);
      timeline := tracer.GetTimeline();
    }
  }

  // --- What the timeline holds ---

  /** The values recorded by the RETURN events, in order. */
  function ReturnValues(events: seq<TraceEvent>): (vs: seq<Value>)
    ensures |vs| <= |events|
  {
    if |events| == 0 then []
    else
      var e := events[|events| - 1];
      ReturnValues(events[..|events| - 1]) + (if e.kind == Return && e.data.ReturnData? then [e.data.returnValue] else [])
  }

  lemma {:induction false} ReturnValuesAppend(a: seq<TraceEvent>, b: seq<TraceEvent>)
    ensures ReturnValues(a + b) == ReturnValues(a) + ReturnValues(b)
    decreases |b|
  {
    if |b| > 0 {
      assert (a + b)[..|a + b| - 1] == a + b[..|b| - 1];
      ReturnValuesAppend(a, b[..|b| - 1]);
    } else {
      assert a + b == a;
    }
  }

  /** The values the activations of `factorial(n)` return, innermost first: 1!, 2!, ..., n!. */
  function FactValues(n: int): (vs: seq<Value>)
    ensures |vs| == Calls(n)
    ensures forall i :: 0 <= i < |vs| ==> vs[i] == Num(Fact(i + 1))
    decreases if n <= 1 then 0 else n
  {
    if n <= 1 then [Num(1)] else FactValues(n - 1) + [Num(Fact(n))]
  }

  lemma CountThree(e1: TraceEvent, e2: TraceEvent, e3: TraceEvent, kind: EventType)
    ensures Count([e1, e2, e3], kind) ==
      (if e1.kind == kind then 1 else 0) + (if e2.kind == kind then 1 else 0) + (if e3.kind == kind then 1 else 0)
  {
    CountSnoc([e1, e2], e3, kind);
    CountSnoc([e1], e2, kind);
    CountSnoc([], e1, kind);
    assert [e1, e2] + [e3] == [e1, e2, e3];
    assert [e1] + [e2] == [e1, e2];
    assert [] + [e1] == [e1];
  }

  lemma ReturnValuesThree(e1: TraceEvent, e2: TraceEvent, e3: TraceEvent)
    requires e1.kind != Return && e2.kind != Return && e3.kind == Return && e3.data.ReturnData?
    ensures ReturnValues([e1, e2, e3]) == [e3.data.returnValue]
  {
    assert [e1, e2, e3][..2] == [e1, e2];
    assert [e1, e2][..1] == [e1];
    assert [e1][..0] == [];
    assert ReturnValues([e1]) == [];
    assert ReturnValues([e1, e2]) == [];
  }

  /**
   * What the close of a recursive invocation leaves in `t`, started in `s`:
   * the VAR events `subResult` and `result`, then the RETURN of the result
   * for the top frame, which is popped.
   */
  ghost predicate ClosedBy(s: TracerState, t: TracerState, sub: int, result: int)
  {
    |s.stack| > 0 && t.stack == s.stack[..|s.stack| - 1] && t.frameCount == s.frameCount &&
    |t.events| == |s.events| + 3 && t.events[..|s.events|] == s.events &&
    var e := t.events[|s.events|..];
    e[0].kind == Var && e[0].data.VarData? && e[0].data.varName == "subResult" && e[0].data.value == Num(sub) &&
    e[1].kind == Var && e[1].data.VarData? && e[1].data.varName == "result" && e[1].data.value == Num(result) &&
    e[2].kind == Return && e[2].frameId == Some(s.stack[|s.stack| - 1]) &&
    e[2].data.ReturnData? && e[2].data.returnValue == Num(result)
  }

  lemma ClosingEffect(s: TracerState, sub: int, result: int) returns (t: TracerState)
    requires WellFormed(s) && |s.stack| > 0
    ensures WellFormed(t) && t == CloseState(s, sub, result)
    ensures ClosedBy(s, t, sub, result)
  {
    var s1 := SetStep(s, "subResult", Num(sub), Some(6));
    var s2 := SetStep(s1, "result", Num(result), Some(7));
    t := ReturnStep(s2, Num(result), Some(8));
    assert t.events[|s.events|..][0] == s1.events[|s.events|];
    assert t.events[|s.events|..][1] == s2.events[|s1.events|];
    assert t.events[..|s.events|] == s.events by {
      assert t.events[..|s.events|] == s2.events[..|s.events|];
      assert s2.events[..|s.events|] == s1.events[..|s.events|];
    }
  }

  /**
   * What `factorial(n)`, started in `s`, leaves in `t`: the stack as it was,
   * `Calls(n)` more ids handed out, and the events of `s` followed by as many
   * CALL as RETURN events, one of each per activation, the RETURN events
   * carrying 1!, ..., n! in order; the first new event is the CALL of the
   * outer frame and the last its RETURN with n!; in a recursive frame the
   * `result` VAR carries n times the `subResult` VAR just before it.
   */
  ghost predicate FactEffectOn(s: TracerState, t: TracerState, n: int)
  {
    |t.events| > |s.events| && t.events[..|s.events|] == s.events &&
    t.stack == s.stack && t.frameCount == s.frameCount + Calls(n) &&
    var added := t.events[|s.events|..];
    Count(added, Call) == Calls(n) && Count(added, Return) == Calls(n) &&
    ReturnValues(added) == FactValues(n) &&
    added[0].kind == Call && added[0].frameId == Some(FrameId(s.frameCount)) &&
    added[|added| - 1].kind == Return && added[|added| - 1].frameId == Some(FrameId(s.frameCount)) &&
    added[|added| - 1].data.ReturnData? && added[|added| - 1].data.returnValue == Num(Fact(n)) &&
    (n > 1 ==> (|added| >= 4 &&
      added[|added| - 3].kind == Var && added[|added| - 3].data.VarData? &&
      added[|added| - 3].data.varName == "subResult" && added[|added| - 3].data.value == Num(Fact(n - 1)) &&
      added[|added| - 2].kind == Var && added[|added| - 2].data.VarData? &&
      added[|added| - 2].data.varName == "result" && added[|added| - 2].data.value == Num(n * Fact(n - 1))))
  }

  /** `factorial(n)` has that effect on every well-formed tracer state. */
  lemma {:induction false} FactEffect(s: TracerState, n: int) returns (t: TracerState)
    requires WellFormed(s)
    ensures WellFormed(t) && t == FactState(s, n)
    ensures FactEffectOn(s, t, n)
    decreases if n <= 1 then 0 else n
  {
    if n <= 1 {
      t := FactBase(s, n);
    } else {
      var s1 := FactOpening(s, n);
      var s2 := FactEffect(s1, n - 1);
      t := ClosingEffect(s2, Fact(n - 1), Fact(n));
      CombineRecursive(s, s1, s2, t, n);
    }
  }

  /** A base-case invocation: its CALL, a step, then its RETURN of 1. */
  lemma FactBase(s: TracerState, n: int) returns (t: TracerState)
    requires WellFormed(s) && n <= 1
    ensures WellFormed(t) && t == FactState(s, n)
    ensures FactEffectOn(s, t, n)
  {
    var s1 := CallStep(s, "factorial", map["n" := Num(n)], Some(1));
    t := ReturnStep(s1, Num(1), Some(3));
    CombineBase(s, s1, t, n);
  }

  /**
   * A recursive invocation up to its inner call: what is left of it is the
   * inner invocation, then its close.
   */
  lemma FactOpening(s: TracerState, n: int) returns (s1: TracerState)
    requires WellFormed(s) && n > 1
    ensures WellFormed(s1)
    ensures FactState(s, n) == CloseState(FactState(s1, n - 1), Fact(n - 1), Fact(n))
    ensures s1.stack == s.stack + [FrameId(s.frameCount)] && s1.frameCount == s.frameCount + 1
    ensures |s1.events| == |s.events| + 1 && s1.events[..|s.events|] == s.events
    ensures s1.events[|s.events|].kind == Call && s1.events[|s.events|].frameId == Some(FrameId(s.frameCount))
  {
    s1 := CallStep(s, "factorial", map["n" := Num(n)], Some(1));
  }

  /** The events of a base-case invocation: its CALL, then its RETURN of 1. */
  lemma CombineBase(s: TracerState, s1: TracerState, t: TracerState, n: int)
    requires n <= 1
    requires s1.stack == s.stack + [FrameId(s.frameCount)] && s1.frameCount == s.frameCount + 1
    requires |s1.events| == |s.events| + 1 && s1.events[..|s.events|] == s.events
    requires s1.events[|s.events|].kind == Call && s1.events[|s.events|].frameId == Some(FrameId(s.frameCount))
    requires t.stack == s1.stack[..|s1.stack| - 1] && t.frameCount == s1.frameCount
    requires |t.events| == |s1.events| + 1 && t.events[..|s1.events|] == s1.events
    requires t.events[|s1.events|].kind == Return && t.events[|s1.events|].frameId == Some(s1.stack[|s1.stack| - 1])
    requires t.events[|s1.events|].data.ReturnData? && t.events[|s1.events|].data.returnValue == Num(1)
    ensures FactEffectOn(s, t, n)
  {
    var added := t.events[|s.events|..];
    var e1, e2 := s1.events[|s.events|], t.events[|s1.events|];
    assert added == [e1, e2];
    assert t.events[..|s.events|] == s1.events[..|s.events|];
    CallThenReturn(e1, e2);
  }

  lemma CallThenReturn(e1: TraceEvent, e2: TraceEvent)
    requires e1.kind == Call && e2.kind == Return && e2.data.ReturnData?
    ensures Count([e1, e2], Call) == 1 && Count([e1, e2], Return) == 1
    ensures ReturnValues([e1, e2]) == [e2.data.returnValue]
  {
    CallThenReturnCounts(e1, e2);
    assert [e1, e2][..1] == [e1];
    assert [e1][..0] == [];
  }

  lemma CallThenReturnCounts(e1: TraceEvent, e2: TraceEvent)
    requires e1.kind == Call && e2.kind == Return
    ensures Count([e1, e2], Call) == 1 && Count([e1, e2], Return) == 1
  {
    assert [e1, e2][..1] == [e1];
    assert [e1][..0] == [];
  }

  /** The events of a recursive invocation: its CALL, the inner invocation's events, then its close. */
  lemma CombineRecursive(s: TracerState, s1: TracerState, s2: TracerState, t: TracerState, n: int)
    requires n > 1
    requires s1.stack == s.stack + [FrameId(s.frameCount)] && s1.frameCount == s.frameCount + 1
    requires |s1.events| == |s.events| + 1 && s1.events[..|s.events|] == s.events
    requires s1.events[|s.events|].kind == Call && s1.events[|s.events|].frameId == Some(FrameId(s.frameCount))
    requires FactEffectOn(s1, s2, n - 1)
    requires ClosedBy(s2, t, Fact(n - 1), Fact(n))
    ensures FactEffectOn(s, t, n)
  {
    var callEv := s1.events[|s.events|];
    var innerAdded := s2.events[|s1.events|..];
    var tail := t.events[|s2.events|..];
    assert s1.events == s.events + [callEv];
    assert s2.events == s1.events + innerAdded;
    assert t.events == s2.events + tail;
    var added := t.events[|s.events|..];
    assert added == [callEv] + innerAdded + tail;
    assert t.events[..|s.events|] == s.events;
    FactAddedCounts(callEv, innerAdded, tail, n);
    assert s.stack == s2.stack[..|s2.stack| - 1];
    assert added[|added| - 3] == tail[0] && added[|added| - 2] == tail[1] && added[|added| - 1] == tail[2];
    assert added[0] == callEv;
  }

  /** Counting the CALL and RETURN events and the returned values over the three parts. */
  lemma FactAddedCounts(callEv: TraceEvent, innerAdded: seq<TraceEvent>, tail: seq<TraceEvent>, n: int)
    requires n > 1 && callEv.kind == Call && |tail| == 3
    requires tail[0].kind == Var && tail[1].kind == Var && tail[2].kind == Return && tail[2].data.ReturnData?
    requires tail[2].data.returnValue == Num(Fact(n))
    requires Count(innerAdded, Call) == Calls(n - 1) && Count(innerAdded, Return) == Calls(n - 1)
    requires ReturnValues(innerAdded) == FactValues(n - 1)
    ensures var added := [callEv] + innerAdded + tail;
      Count(added, Call) == Calls(n) && Count(added, Return) == Calls(n) &&
      ReturnValues(added) == FactValues(n)
  {
    assert tail == [tail[0], tail[1], tail[2]];
    CountAppend([callEv] + innerAdded, tail, Call);
    CountAppend([callEv], innerAdded, Call);
    CountAppend([callEv] + innerAdded, tail, Return);
    CountAppend([callEv], innerAdded, Return);
    CountThree(tail[0], tail[1], tail[2], Call);
    CountThree(tail[0], tail[1], tail[2], Return);
    ReturnValuesAppend([callEv] + innerAdded, tail);
    ReturnValuesAppend([callEv], innerAdded);
    ReturnValuesThree(tail[0], tail[1], tail[2]);
    assert [callEv][..0] == [];
    assert ReturnValues([callEv]) == [];
    assert Count([callEv], Call) == 1 && Count([callEv], Return) == 0;
  }

  /**
   * The timeline of `run(n)`: n CALL events (one when n <= 1) and as many
   * RETURN events, the RETURN values 1!, 2!, ..., n! in order, the first
   * event the CALL of `frame_0`, and nothing left on the stack.
   */
  lemma RunTimeline(n: int)
    ensures var t := RunState(n);
      Count(t.events, Call) == Calls(n) && Count(t.events, Return) == Calls(n) &&
      (n >= 1 ==> Count(t.events, Call) == n) &&
      ReturnValues(t.events) == FactValues(n) &&
      t.stack == [] && t.events[0].kind == Call && t.events[0].frameId == Some("frame_0")
  {
    InitInv();
    var t := FactEffect(Init, n);
    assert t.events[0..] == t.events;
    assert FrameId(0) == "frame_0";
  }

  /** The values 1!, 2!, 3!. */
  lemma FactValuesThree()
    ensures FactValues(3) == [Num(1), Num(2), Num(6)]
  {
    var vs := FactValues(3);
    assert vs[0] == Num(Fact(1)) && vs[1] == Num(Fact(2)) && vs[2] == Num(Fact(3));
  }

  /** For n = 3 the RETURN events carry 1, 2 and 6, in that order. */
  lemma RunThreeReturns(n: int)
    requires n == 3
    ensures ReturnValues(RunState(n).events) == [Num(1), Num(2), Num(6)]
  {
    RunTimeline(n);
    FactValuesThree();
  }
}
