/**
 * The recording session of src/core/RecursionTracer.js as a value: the
 * event list, the call stack (as frame ids, bottom first), the frame
 * registry and the id counter, and one transition per tracer operation.
 * The `RecursionTracer` class is proved to follow `Apply` step by step;
 * the facts the tracer promises are proved here once, about `Apply`.
 */
module TracerSpec {
  import opened Wrappers
  import opened Values
  import opened Frames
  import opened Events

  datatype TracerState = TracerState(
    events: seq<TraceEvent>,
    stack: seq<string>,
    frames: map<string, FrameSnap>,
    frameCount: nat)

  /** A new tracer, and the state `reset` returns to. */
  const Init: TracerState := TracerState([], [], map[], 0)

  /** The id the `k`-th call of a run receives, `frame_k`. */
  function FrameId(k: nat): (id: string)
    ensures |id| > 6 && id[..6] == "frame_"
  {
    "frame_" + NatToString(k)
  }

  /** Distinct counter values give distinct ids. */
  lemma FrameIdInjective(a: nat, b: nat)
    requires FrameId(a) == FrameId(b)
    ensures a == b
  {
    assert NatToString(a) == FrameId(a)[6..] == FrameId(b)[6..] == NatToString(b);
    NatToStringInjective(a, b);
  }

  /** One call a program makes on the tracer. `StepOp` stands for the `step` the algorithms call, which the tracer does not define. */
  datatype Op =
    | CallOp(name: string, args: map<string, Value>, line: Option<int>)
    | ReturnOp(value: Value, line: Option<int>)
    | LineOp(lineNumber: int)
    | SetOp(varName: string, value: Value, line: Option<int>)
    | LogOp(message: Value, line: Option<int>)
    | StepOp(text: string, stepLine: int)
    | ResetOp

  /** The id of the frame on top of the stack, or null. */
  function Top(s: TracerState): (t: Option<string>)
    ensures t.Some? <==> |s.stack| > 0
    ensures t.Some? ==> t.value == s.stack[|s.stack| - 1]
  {
    if |s.stack| > 0 then Some(s.stack[|s.stack| - 1]) else None
  }

  /** Every stacked id names a registered frame, and every frame is registered under its own id. */
  ghost predicate WellFormed(s: TracerState)
  {
    (forall i :: 0 <= i < |s.stack| ==> s.stack[i] in s.frames) &&
    (forall k :: k in s.frames ==> s.frames[k].id == k)
  }

  /** The effect of one tracer operation. */
  function Apply(s: TracerState, op: Op): (r: TracerState)
    requires WellFormed(s)
    ensures WellFormed(r)
  {
    match op
    case CallOp(name, args, line) =>
      var id := FrameId(s.frameCount);
      var frame := NewSnap(id, name, CopyFields(args), Top(s), |s.stack|);
      var stack := s.stack + [id];
      TracerState(
        s.events + [NewTraceEvent(Call, CallData(frame, |stack|), "Called function " + name, line, Some(id))],
        stack, s.frames[id := frame], s.frameCount + 1)
    case ReturnOp(value, line) =>
      if |s.stack| == 0 then s
      else
        var frame := WithReturn(s.frames[s.stack[|s.stack| - 1]], value);
        var stack := s.stack[..|s.stack| - 1];
        TracerState(
          s.events + [NewTraceEvent(Return, ReturnData(frame, value, |stack|), "Returning from " + frame.name, line, Some(frame.id))],
          stack, s.frames[frame.id := frame], s.frameCount)
    case LineOp(n) =>
      if |s.stack| == 0 then s
      else
        s.(events := s.events + [NewTraceEvent(Line, NoData, "Executing line " + IntToString(n), Some(n), Top(s))])
    case SetOp(x, value, line) =>
      if |s.stack| == 0 then s
      else
        var frame := WithLocal(s.frames[s.stack[|s.stack| - 1]], x, value);
        s.(events := s.events + [NewTraceEvent(Var, VarData(frame.id, x, value, frame.locals), "Updated " + x, line, Some(frame.id))],
           frames := s.frames[frame.id := frame])
    case LogOp(message, line) =>
      s.(events := s.events + [NewTraceEvent(Log, LogData(message), "Console: " + Display(message), line, Top(s))])
    case StepOp(_, _) => s
    case ResetOp => Init
  }

  /** The operations applied one after another. */
  function Exec(s: TracerState, ops: seq<Op>): (r: TracerState)
    requires WellFormed(s)
    ensures WellFormed(r)
    decreases |ops|
  {
    if |ops| == 0 then s else Exec(Apply(s, ops[0]), ops[1..])
  }

  /** What a fresh tracer holds after the operations. */
  function Run(ops: seq<Op>): TracerState
  {
    Exec(Init, ops)
  }

  lemma {:induction false} ExecAppend(s: TracerState, a: seq<Op>, b: seq<Op>)
    requires WellFormed(s)
    ensures Exec(s, a + b) == Exec(Exec(s, a), b)
    decreases |a|
  {
    if |a| > 0 {
      assert (a + b)[1..] == a[1..] + b;
      ExecAppend(Apply(s, a[0]), a[1..], b);
    } else {
      assert a + b == b;
    }
  }

  lemma ExecSnoc(s: TracerState, a: seq<Op>, op: Op)
    requires WellFormed(s)
    ensures Exec(s, a + [op]) == Apply(Exec(s, a), op)
  {
    ExecAppend(s, a, [op]);
  }

  // ---------------------------------------------------------------
  // Counting events
  // ---------------------------------------------------------------

  /** How many events of the given kind the list holds. */
  function Count(events: seq<TraceEvent>, kind: EventType): (n: nat)
    ensures n <= |events|
  {
    if |events| == 0 then 0
    else Count(events[..|events| - 1], kind) + (if events[|events| - 1].kind == kind then 1 else 0)
  }

  lemma {:induction false} CountAppend(a: seq<TraceEvent>, b: seq<TraceEvent>, kind: EventType)
    ensures Count(a + b, kind) == Count(a, kind) + Count(b, kind)
    decreases |b|
  {
    if |b| > 0 {
      assert (a + b)[..|a + b| - 1] == a + b[..|b| - 1];
      CountAppend(a, b[..|b| - 1], kind);
    } else {
      assert a + b == a;
    }
  }

  // ---------------------------------------------------------------
  // The session invariant
  // ---------------------------------------------------------------

  /** Ids not yet handed out are not registered. */
  ghost predicate FreshIds(s: TracerState)
  {
    forall j: nat :: j >= s.frameCount ==> FrameId(j) !in s.frames
  }

  /** Registering the next id keeps the ids after it unused. */
  lemma NextIdFresh(s: TracerState, frame: FrameSnap)
    requires FreshIds(s)
    ensures FreshIds(s.(frames := s.frames[FrameId(s.frameCount) := frame], frameCount := s.frameCount + 1))
  {
    forall j: nat | j >= s.frameCount + 1
      ensures FrameId(j) != FrameId(s.frameCount)
    {
      if FrameId(j) == FrameId(s.frameCount) { FrameIdInjective(j, s.frameCount); }
    }
  }

  /** No frame is on the stack twice. */
  ghost predicate DistinctStack(s: TracerState)
  {
    forall i, j :: 0 <= i < j < |s.stack| ==> s.stack[i] != s.stack[j]
  }

  /** The parent of the frame at stack position `i`: the frame below it, or null at the bottom. */
  function ParentAt(stack: seq<string>, i: nat): Option<string>
    requires i < |stack|
  {
    if i == 0 then None else Some(stack[i - 1])
  }

  /** Each stacked frame is active, its depth is its stack position and its parent is the frame below. */
  ghost predicate StackShape(s: TracerState)
    requires WellFormed(s)
  {
    forall i {:trigger s.frames[s.stack[i]]} :: 0 <= i < |s.stack| ==>
      s.frames[s.stack[i]].depth == i &&
      s.frames[s.stack[i]].state == Active &&
      s.frames[s.stack[i]].parentId == ParentAt(s.stack, i)
  }

  /** A registered frame that is off the stack has returned. */
  ghost predicate OffStackReturned(s: TracerState)
  {
    forall k :: k in s.frames && k !in s.stack ==> s.frames[k].state == Returned
  }

  /** The stack is as long as the CALL events outnumber the RETURN events. */
  ghost predicate Balanced(s: TracerState)
  {
    Count(s.events, Call) == Count(s.events, Return) + |s.stack|
  }

  /** What holds of every state the tracer reaches. */
  ghost predicate Inv(s: TracerState)
  {
    WellFormed(s) && FreshIds(s) && DistinctStack(s) && StackShape(s) && OffStackReturned(s) && Balanced(s)
  }

  lemma InitInv()
    ensures Inv(Init)
  {
  }

  lemma CountSnoc(events: seq<TraceEvent>, e: TraceEvent, kind: EventType)
    ensures Count(events + [e], kind) == Count(events, kind) + (if e.kind == kind then 1 else 0)
  {
    assert (events + [e])[..|events|] == events;
  }

  /** Appending one event keeps the balance when the stack changes by what the event's kind says. */
  lemma AppendKeepsBalance(s: TracerState, r: TracerState, e: TraceEvent)
    requires Balanced(s)
    requires r.events == s.events + [e]
    requires |r.stack| == |s.stack| + (if e.kind == Call then 1 else 0) - (if e.kind == Return then 1 else 0)
    ensures Balanced(r)
  {
    CountSnoc(s.events, e, Call);
    CountSnoc(s.events, e, Return);
  }

  /** Pushing a fresh active frame whose depth and parent match its stack position keeps the stack invariants. */
  lemma PushKeepsShape(s: TracerState, r: TracerState, id: string, frame: FrameSnap)
    requires WellFormed(s) && DistinctStack(s) && StackShape(s) && OffStackReturned(s)
    requires id !in s.frames && frame.id == id
    requires r.stack == s.stack + [id] && r.frames == s.frames[id := frame]
    requires frame.depth == |s.stack| && frame.state == Active && frame.parentId == Top(s)
    ensures WellFormed(r) && DistinctStack(r) && StackShape(r) && OffStackReturned(r)
  {
    PushKeepsDistinct(s, r, id, frame);
    PushKeepsStackShape(s, r, id, frame);
    forall k | k in r.frames && k !in r.stack ensures r.frames[k].state == Returned {
      assert k != id && k in s.frames;
    }
  }

  lemma PushKeepsDistinct(s: TracerState, r: TracerState, id: string, frame: FrameSnap)
    requires WellFormed(s) && DistinctStack(s)
    requires id !in s.frames && frame.id == id
    requires r.stack == s.stack + [id] && r.frames == s.frames[id := frame]
    ensures WellFormed(r) && DistinctStack(r)
  {
    var n := |s.stack|;
    forall i | 0 <= i < |r.stack| ensures r.stack[i] in r.frames {
      if i < n { assert r.stack[i] == s.stack[i]; }
    }
    forall i, j | 0 <= i < j < |r.stack| ensures r.stack[i] != r.stack[j] {
      if j == n { assert r.stack[i] == s.stack[i] && s.stack[i] in s.frames; }
    }
  }

  lemma PushKeepsStackShape(s: TracerState, r: TracerState, id: string, frame: FrameSnap)
    requires WellFormed(s) && StackShape(s) && WellFormed(r)
    requires id !in s.frames && frame.id == id
    requires r.stack == s.stack + [id] && r.frames == s.frames[id := frame]
    requires frame.depth == |s.stack| && frame.state == Active && frame.parentId == Top(s)
    ensures StackShape(r)
  {
    var n := |s.stack|;
    forall i | 0 <= i < |r.stack|
      ensures r.frames[r.stack[i]].depth == i
      ensures r.frames[r.stack[i]].state == Active
      ensures r.frames[r.stack[i]].parentId == ParentAt(r.stack, i)
    {
      if i < n {
        assert r.stack[i] == s.stack[i] && s.stack[i] in s.frames && s.stack[i] != id;
        assert r.frames[r.stack[i]] == s.frames[s.stack[i]];
        assert ParentAt(r.stack, i) == ParentAt(s.stack, i);
      } else {
        assert r.frames[r.stack[i]] == frame;
      }
    }
  }

  lemma CallKeepsInv(s: TracerState, name: string, args: map<string, Value>, line: Option<int>)
    requires Inv(s)
    ensures Inv(Apply(s, CallOp(name, args, line)))
  {
    var r := Apply(s, CallOp(name, args, line));
    var id := FrameId(s.frameCount);
    assert id !in s.frames;
    forall j: nat | j >= r.frameCount ensures FrameId(j) !in r.frames {
      if FrameId(j) == id { FrameIdInjective(j, s.frameCount); }
    }
    PushKeepsShape(s, r, id, r.frames[id]);
    AppendKeepsBalance(s, r, r.events[|s.events|]);
  }

  /** The state after a RETURN, described without unfolding `Apply`. */
  lemma ReturnResult(s: TracerState, value: Value, line: Option<int>)
    requires WellFormed(s) && |s.stack| > 0
    ensures var r := Apply(s, ReturnOp(value, line));
      var top := s.stack[|s.stack| - 1];
      r.stack == s.stack[..|s.stack| - 1] &&
      r.frames == s.frames[top := s.frames[top].(returnValue := value, state := Returned)] &&
      r.frameCount == s.frameCount &&
      r.events == s.events + [r.events[|s.events|]] &&
      r.events[|s.events|].kind == Return
  {
  }

  /** The frames below the top keep their positions, and their records, after a pop. */
  lemma PopKeepsShape(s: TracerState, r: TracerState, value: Value)
    requires WellFormed(s) && DistinctStack(s) && StackShape(s) && |s.stack| > 0
    requires r.stack == s.stack[..|s.stack| - 1]
    requires r.frames == s.frames[s.stack[|s.stack| - 1] := s.frames[s.stack[|s.stack| - 1]].(returnValue := value, state := Returned)]
    ensures WellFormed(r) && DistinctStack(r) && StackShape(r)
  {
    var n := |s.stack| - 1;
    var top := s.stack[n];
    assert r.frames.Keys == s.frames.Keys;
    assert forall i :: 0 <= i < n ==> r.stack[i] == s.stack[i] && r.stack[i] != top;
    forall i | 0 <= i < |r.stack|
      ensures r.frames[r.stack[i]].depth == i
      ensures r.frames[r.stack[i]].state == Active
      ensures r.frames[r.stack[i]].parentId == ParentAt(r.stack, i)
    {
      assert r.frames[r.stack[i]] == s.frames[s.stack[i]];
      assert ParentAt(r.stack, i) == ParentAt(s.stack, i);
    }
  }

  /** The popped frame is the only one to leave the stack, and it is marked returned. */
  lemma PopKeepsReturned(s: TracerState, r: TracerState, value: Value)
    requires WellFormed(s) && OffStackReturned(s) && |s.stack| > 0
    requires r.stack == s.stack[..|s.stack| - 1]
    requires r.frames == s.frames[s.stack[|s.stack| - 1] := s.frames[s.stack[|s.stack| - 1]].(returnValue := value, state := Returned)]
    ensures OffStackReturned(r)
  {
    var top := s.stack[|s.stack| - 1];
    assert s.stack == r.stack + [top];
    forall k | k in r.frames && k !in r.stack ensures r.frames[k].state == Returned {
      if k != top {
        assert k !in s.stack;
      }
    }
  }

  lemma ReturnKeepsInv(s: TracerState, value: Value, line: Option<int>)
    requires Inv(s) && |s.stack| > 0
    ensures Inv(Apply(s, ReturnOp(value, line)))
  {
    var r := Apply(s, ReturnOp(value, line));
    ReturnResult(s, value, line);
    PopKeepsShape(s, r, value);
    PopKeepsReturned(s, r, value);
    assert r.frames.Keys == s.frames.Keys;
    assert FreshIds(r);
    AppendKeepsBalance(s, r, r.events[|s.events|]);
  }

  lemma SetKeepsInv(s: TracerState, x: string, value: Value, line: Option<int>)
    requires Inv(s) && |s.stack| > 0
    ensures Inv(Apply(s, SetOp(x, value, line)))
  {
    var r := Apply(s, SetOp(x, value, line));
    var top := s.stack[|s.stack| - 1];
    assert r.events == s.events + [r.events[|s.events|]];
    UpdateTopKeepsInv(s, r, WithLocal(s.frames[top], x, value), r.events[|s.events|]);
  }

  /** Replacing the top frame's record by one differing only in its locals, with a VAR event, keeps the invariant. */
  lemma UpdateTopKeepsInv(s: TracerState, r: TracerState, f: FrameSnap, e: TraceEvent)
    requires Inv(s) && |s.stack| > 0
    requires f == s.frames[s.stack[|s.stack| - 1]].(locals := f.locals)
    requires r == TracerState(s.events + [e], s.stack, s.frames[s.stack[|s.stack| - 1] := f], s.frameCount)
    requires e.kind == Var
    ensures Inv(r)
  {
    var top := s.stack[|s.stack| - 1];
    assert r.frames.Keys == s.frames.Keys;
    assert FreshIds(r) && DistinctStack(r);
    forall i | 0 <= i < |r.stack|
      ensures r.frames[r.stack[i]].depth == i
      ensures r.frames[r.stack[i]].state == Active
      ensures r.frames[r.stack[i]].parentId == ParentAt(r.stack, i)
    {
      assert r.frames[r.stack[i]].depth == s.frames[s.stack[i]].depth;
    }
    assert OffStackReturned(r);
    CountSnoc(s.events, e, Call);
    CountSnoc(s.events, e, Return);
  }

  /** Appending an event that touches neither the stack nor the frames keeps the invariant. */
  lemma AppendEventKeepsInv(s: TracerState, e: TraceEvent)
    requires Inv(s) && e.kind != Call && e.kind != Return
    ensures Inv(s.(events := s.events + [e]))
  {
    CountSnoc(s.events, e, Call);
    CountSnoc(s.events, e, Return);
  }

  /** Operations that only append a LINE or LOG event keep the invariant. */
  lemma AppendOnlyKeepsInv(s: TracerState, op: Op)
    requires Inv(s) && (op.LineOp? || op.LogOp?)
    ensures Inv(Apply(s, op))
  {
    match op
    case LineOp(n) =>
      if |s.stack| > 0 {
        AppendEventKeepsInv(s, NewTraceEvent(Line, NoData, "Executing line " + IntToString(n), Some(n), Top(s)));
      }
    case LogOp(message, line) =>
      AppendEventKeepsInv(s, NewTraceEvent(Log, LogData(message), "Console: " + Display(message), line, Top(s)));
  }

  /** Every tracer operation keeps the session invariant. */
  lemma ApplyKeepsInv(s: TracerState, op: Op)
    requires Inv(s)
    ensures Inv(Apply(s, op))
  {
    match op
    case CallOp(name, args, line) => CallKeepsInv(s, name, args, line);
    case ReturnOp(value, line) => if |s.stack| > 0 { ReturnKeepsInv(s, value, line); }
    case SetOp(x, value, line) => if |s.stack| > 0 { SetKeepsInv(s, x, value, line); }
    case LineOp(_) => AppendOnlyKeepsInv(s, op);
    case LogOp(_, _) => AppendOnlyKeepsInv(s, op);
    case StepOp(_, _) =>
    case ResetOp =>
  }

  lemma {:induction false} ExecKeepsInv(s: TracerState, ops: seq<Op>)
    requires Inv(s)
    ensures Inv(Exec(s, ops))
    decreases |ops|
  {
    if |ops| > 0 {
      ApplyKeepsInv(s, ops[0]);
      ExecKeepsInv(Apply(s, ops[0]), ops[1..]);
    }
  }

  /** Every state a fresh tracer reaches satisfies the session invariant. */
  lemma RunInv(ops: seq<Op>)
    ensures Inv(Run(ops))
  {
    InitInv();
    ExecKeepsInv(Init, ops);
  }

  // ---------------------------------------------------------------
  // What each operation does
  // ---------------------------------------------------------------

  /**
   * `call` hands out `frame_k` for the current counter `k` and increments it,
   * pushes exactly one frame whose depth is the old stack length and whose
   * parent is the old top (null on an empty stack), registers it, and appends
   * exactly one CALL event whose `stackDepth` is the new stack length.
   */
  lemma CallFacts(s: TracerState, name: string, args: map<string, Value>, line: Option<int>)
    requires WellFormed(s)
    ensures var r := Apply(s, CallOp(name, args, line));
      var id := FrameId(s.frameCount);
      r.frameCount == s.frameCount + 1 &&
      r.stack == s.stack + [id] &&
      r.frames == s.frames[id := r.frames[id]] &&
      r.frames[id].depth == |s.stack| &&
      r.frames[id].parentId == Top(s) &&
      r.frames[id].name == name && r.frames[id].args == CopyFields(args) &&
      r.frames[id].state == Active && r.frames[id].locals == map[] &&
      |r.events| == |s.events| + 1 && r.events[..|s.events|] == s.events &&
      r.events[|s.events|].kind == Call &&
      r.events[|s.events|].frameId == Some(id) &&
      r.events[|s.events|].data.CallData? &&
      r.events[|s.events|].data.frame == CopySnap(r.frames[id]) &&
      r.events[|s.events|].data.stackDepth == r.frames[id].depth + 1
  {
  }

  /** On an empty stack `return` changes nothing. */
  lemma ReturnOnEmpty(s: TracerState, value: Value, line: Option<int>)
    requires WellFormed(s) && |s.stack| == 0
    ensures Apply(s, ReturnOp(value, line)) == s
  {
  }

  /**
   * Otherwise `return` pops the top frame whatever its id, marks it returned
   * with the value, and appends one RETURN event naming the popped frame and
   * carrying the stack length after the pop.
   */
  lemma ReturnFacts(s: TracerState, value: Value, line: Option<int>)
    requires WellFormed(s) && |s.stack| > 0
    ensures var r := Apply(s, ReturnOp(value, line));
      var top := s.stack[|s.stack| - 1];
      r.stack == s.stack[..|s.stack| - 1] &&
      r.frames == s.frames[top := s.frames[top].(returnValue := value, state := Returned)] &&
      r.frameCount == s.frameCount &&
      |r.events| == |s.events| + 1 && r.events[..|s.events|] == s.events &&
      r.events[|s.events|].kind == Return &&
      r.events[|s.events|].frameId == Some(top) &&
      r.events[|s.events|].data.ReturnData? &&
      r.events[|s.events|].data.returnValue == JsonCopy(value) &&
      r.events[|s.events|].data.stackDepth == |r.stack|
  {
  }

  /**
   * `registerLine` and `set` do nothing on an empty stack; otherwise
   * `registerLine` appends one LINE event attributed to the top frame and
   * `set` updates only the top frame's locals and appends one VAR event.
   */
  lemma LineAndSetFacts(s: TracerState, n: int, x: string, value: Value, line: Option<int>)
    requires WellFormed(s)
    ensures |s.stack| == 0 ==> Apply(s, LineOp(n)) == s && Apply(s, SetOp(x, value, line)) == s
    ensures |s.stack| > 0 ==>
      var r := Apply(s, LineOp(n));
      r.stack == s.stack && r.frames == s.frames && r.frameCount == s.frameCount &&
      r.events == s.events + [r.events[|s.events|]] &&
      r.events[|s.events|].kind == Line && r.events[|s.events|].frameId == Top(s) &&
      r.events[|s.events|].lineNumber == Some(n)
    ensures |s.stack| > 0 ==>
      var r := Apply(s, SetOp(x, value, line));
      var top := s.stack[|s.stack| - 1];
      r.stack == s.stack && r.frameCount == s.frameCount &&
      r.frames == s.frames[top := s.frames[top].(locals := s.frames[top].locals[x := value])] &&
      r.events == s.events + [r.events[|s.events|]] &&
      r.events[|s.events|].kind == Var && r.events[|s.events|].frameId == Some(top) &&
      r.events[|s.events|].data == VarData(top, x, JsonCopy(value), CopyFields(s.frames[top].locals[x := value]))
  {
  }

  /** `log` always appends exactly one LOG event, attributed to the top frame or to none. */
  lemma LogFacts(s: TracerState, message: Value, line: Option<int>)
    requires WellFormed(s)
    ensures var r := Apply(s, LogOp(message, line));
      r.stack == s.stack && r.frames == s.frames && r.frameCount == s.frameCount &&
      r.events == s.events + [r.events[|s.events|]] &&
      r.events[|s.events|].kind == Log && r.events[|s.events|].frameId == Top(s) &&
      r.events[|s.events|].data == LogData(JsonCopy(message))
  {
  }

  /** After `reset` everything is empty again, so the next call is `frame_0`. */
  lemma ResetThenCall(s: TracerState, name: string, args: map<string, Value>, line: Option<int>)
    requires WellFormed(s)
    ensures Apply(s, ResetOp) == Init
    ensures var r := Apply(Apply(s, ResetOp), CallOp(name, args, line));
      r.stack == ["frame_0"] && |r.events| == 1 && r.events[0].frameId == Some("frame_0") &&
      r.frames.Keys == {"frame_0"} && r.frameCount == 1
  {
    assert FrameId(0) == "frame_0";
  }

  /** Without a reset the operations only ever append: earlier events are never changed. */
  lemma {:induction false} ExecOnlyAppends(s: TracerState, ops: seq<Op>)
    requires WellFormed(s)
    requires forall i :: 0 <= i < |ops| ==> !ops[i].ResetOp?
    ensures |Exec(s, ops).events| >= |s.events|
    ensures Exec(s, ops).events[..|s.events|] == s.events
    decreases |ops|
  {
    if |ops| > 0 {
      var s1 := Apply(s, ops[0]);
      assert s1.events[..|s.events|] == s.events;
      ExecOnlyAppends(s1, ops[1..]);
      assert Exec(s, ops).events[..|s.events|] == Exec(s1, ops[1..]).events[..|s1.events|][..|s.events|];
    }
  }

  /**
   * The snapshot a CALL event stores keeps state ACTIVE, whatever happens to
   * the frame afterwards (up to a reset).
   */
  lemma CallSnapshotStaysActive(s: TracerState, name: string, args: map<string, Value>, line: Option<int>, later: seq<Op>)
    requires WellFormed(s)
    requires forall i :: 0 <= i < |later| ==> !later[i].ResetOp?
    ensures var t := Exec(Apply(s, CallOp(name, args, line)), later);
      |t.events| > |s.events| &&
      t.events[|s.events|].kind == Call &&
      t.events[|s.events|].data.CallData? &&
      t.events[|s.events|].data.frame.state == Active &&
      t.events[|s.events|].data.frame.id == FrameId(s.frameCount)
  {
    var s1 := Apply(s, CallOp(name, args, line));
    CallFacts(s, name, args, line);
    ExecOnlyAppends(s1, later);
    var t := Exec(s1, later);
    var k := |s.events|;
    assert k < |s1.events|;
    assert t.events[k] == t.events[..|s1.events|][k] == s1.events[k];
  }

  // ---------------------------------------------------------------
  // One operation at a time
  // ---------------------------------------------------------------

  /*
   * The lemmas below each hand back the state after one operation together
   * with what changed, so that a proof chaining many operations never
   * unfolds `Apply` more than once.
   */

  /** `call` pushes `frame_k` and appends its CALL event. */
  lemma CallStep(s: TracerState, name: string, args: map<string, Value>, line: Option<int>)
    returns (r: TracerState)
    requires WellFormed(s)
    ensures WellFormed(r) && r == Apply(s, CallOp(name, args, line))
    ensures r.stack == s.stack + [FrameId(s.frameCount)] && r.frameCount == s.frameCount + 1
    ensures |r.events| == |s.events| + 1 && r.events[..|s.events|] == s.events
    ensures r.events[|s.events|].kind == Call && r.events[|s.events|].frameId == Some(FrameId(s.frameCount))
  {
    r := Apply(s, CallOp(name, args, line));
    CallFacts(s, name, args, line);
  }

  /** `set` on a non-empty stack appends one VAR event carrying the name and a copy of the value; the stack stays. */
  lemma SetStep(s: TracerState, x: string, v: Value, line: Option<int>) returns (r: TracerState)
    requires WellFormed(s) && |s.stack| > 0
    ensures WellFormed(r) && r == Apply(s, SetOp(x, v, line))
    ensures r.stack == s.stack && r.frameCount == s.frameCount
    ensures |r.events| == |s.events| + 1 && r.events[..|s.events|] == s.events
    ensures r.events[|s.events|].kind == Var && r.events[|s.events|].data.VarData?
    ensures r.events[|s.events|].data.varName == x && r.events[|s.events|].data.value == JsonCopy(v)
  {
    r := Apply(s, SetOp(x, v, line));
  }

  /** `return` on a non-empty stack appends one RETURN event for the top frame and pops it. */
  lemma ReturnStep(s: TracerState, v: Value, line: Option<int>) returns (r: TracerState)
    requires WellFormed(s) && |s.stack| > 0
    ensures WellFormed(r) && r == Apply(s, ReturnOp(v, line))
    ensures r.stack == s.stack[..|s.stack| - 1] && r.frameCount == s.frameCount
    ensures |r.events| == |s.events| + 1 && r.events[..|s.events|] == s.events
    ensures r.events[|s.events|].kind == Return && r.events[|s.events|].frameId == Some(s.stack[|s.stack| - 1])
    ensures r.events[|s.events|].data.ReturnData? && r.events[|s.events|].data.returnValue == JsonCopy(v)
  {
    r := Apply(s, ReturnOp(v, line));
    ReturnFacts(s, v, line);
  }
}
