/**
 * The link between the recorder and the replays: every timeline a tracer
 * produces, and every prefix of it, is strictly nested, carries unique CALL
 * ids, and its open ids are exactly the tracer's stack at the matching
 * moment. With the `Replay` lemmas this makes all four reconstructions equal
 * to the tracer's own stack at every step of the timeline.
 */
module Agreement {
  import opened Wrappers
  import opened Values
  import opened Frames
  import opened Events
  import opened TracerSpec
  import opened Replay
  import TreeView

  /** The stack's ids as the (nullable) frame ids events carry. */
  function SomeIds(stack: seq<string>): (r: seq<Option<string>>)
    ensures |r| == |stack|
    ensures forall i :: 0 <= i < |stack| ==> r[i] == Some(stack[i])
  {
    seq(|stack|, i requires 0 <= i < |stack| => Some(stack[i]))
  }

  /** The events of a state record its history: nested, unique CALL ids, open ids = stack, CALL ids = registry. */
  ghost predicate Recorded(s: TracerState)
  {
    Nested(s.events) && UniqueCalls(s.events) &&
    OpenIds(s.events) == SomeIds(s.stack) &&
    Elems(CallIds(s.events)) == Registered(s.frames)
  }

  /** The registered ids, as the (nullable) frame ids events carry. */
  function Registered(frames: map<string, FrameSnap>): (r: set<Option<string>>)
    ensures forall x :: x in r <==> x.Some? && x.value in frames
  {
    set k | k in frames :: Some(k)
  }

  lemma AppendOther(es: seq<TraceEvent>, e: TraceEvent)
    requires e.kind != Call && e.kind != Return
    ensures OpenIds(es + [e]) == OpenIds(es) && CallIds(es + [e]) == CallIds(es)
    ensures Nested(es) ==> Nested(es + [e])
  {
    Snoc(es, e);
  }

  lemma AppendCall(es: seq<TraceEvent>, e: TraceEvent)
    requires e.kind == Call
    ensures OpenIds(es + [e]) == OpenIds(es) + [e.frameId] && CallIds(es + [e]) == CallIds(es) + [e.frameId]
    ensures Nested(es) && e.frameId !in OpenIds(es) ==> Nested(es + [e])
  {
    Snoc(es, e);
  }

  lemma AppendReturn(es: seq<TraceEvent>, e: TraceEvent)
    requires e.kind == Return && |OpenIds(es)| > 0 && OpenIds(es)[|OpenIds(es)| - 1] == e.frameId
    ensures OpenIds(es + [e]) == OpenIds(es)[..|OpenIds(es)| - 1] && CallIds(es + [e]) == CallIds(es)
    ensures Nested(es) ==> Nested(es + [e])
  {
    Snoc(es, e);
  }

  /*
   * Each kind of operation keeps `Recorded`: first for any state that
   * changes as the operation's facts say, then for `Apply` itself.
   */

  lemma RecordedAfterCall(s: TracerState, r: TracerState, id: string, e: TraceEvent)
    requires Recorded(s) && id !in s.frames && id !in s.stack
    requires r.events == s.events + [e] && e.kind == Call && e.frameId == Some(id)
    requires r.stack == s.stack + [id] && r.frames.Keys == s.frames.Keys + {id}
    ensures Recorded(r)
  {
    AppendCall(s.events, e);
    assert Some(id) !in Registered(s.frames);
    assert Some(id) !in Elems(CallIds(s.events));
    assert Some(id) !in SomeIds(s.stack);
    assert SomeIds(r.stack) == SomeIds(s.stack) + [Some(id)];
    assert Elems(CallIds(r.events)) == Elems(CallIds(s.events)) + {Some(id)};
    assert Registered(r.frames) == Registered(s.frames) + {Some(id)};
  }

  lemma RecordedAfterReturn(s: TracerState, r: TracerState, e: TraceEvent)
    requires Recorded(s) && |s.stack| > 0
    requires r.events == s.events + [e] && e.kind == Return && e.frameId == Some(s.stack[|s.stack| - 1])
    requires r.stack == s.stack[..|s.stack| - 1] && r.frames.Keys == s.frames.Keys
    ensures Recorded(r)
  {
    AppendReturn(s.events, e);
    assert SomeIds(r.stack) == SomeIds(s.stack)[..|s.stack| - 1];
    assert Registered(r.frames) == Registered(s.frames);
  }

  lemma RecordedAfterOther(s: TracerState, r: TracerState, e: TraceEvent)
    requires Recorded(s)
    requires r.events == s.events + [e] && e.kind != Call && e.kind != Return
    requires r.stack == s.stack && r.frames.Keys == s.frames.Keys
    ensures Recorded(r)
  {
    AppendOther(s.events, e);
    assert Registered(r.frames) == Registered(s.frames);
  }

  lemma CallKeepsRecorded(s: TracerState, name: string, args: map<string, Value>, line: Option<int>)
    requires WellFormed(s) && FreshIds(s) && Recorded(s)
    ensures Recorded(Apply(s, CallOp(name, args, line)))
  {
    var r := Apply(s, CallOp(name, args, line));
    var id := FrameId(s.frameCount);
    CallFacts(s, name, args, line);
    assert r.events == s.events + [r.events[|s.events|]];
    RecordedAfterCall(s, r, id, r.events[|s.events|]);
  }

  lemma ReturnKeepsRecorded(s: TracerState, value: Value, line: Option<int>)
    requires WellFormed(s) && Recorded(s) && |s.stack| > 0
    ensures Recorded(Apply(s, ReturnOp(value, line)))
  {
    var r := Apply(s, ReturnOp(value, line));
    ReturnFacts(s, value, line);
    assert s.stack[|s.stack| - 1] in s.frames;
    assert r.events == s.events + [r.events[|s.events|]];
    RecordedAfterReturn(s, r, r.events[|s.events|]);
  }

  lemma OtherKeepsRecorded(s: TracerState, op: Op)
    requires WellFormed(s) && Recorded(s)
    requires op.LineOp? || op.SetOp? || op.LogOp?
    ensures Recorded(Apply(s, op))
  {
    var r := Apply(s, op);
    match op
    case LineOp(n) =>
      LineAndSetFacts(s, n, "", Null, None);
      if |s.stack| > 0 {
        RecordedAfterOther(s, r, r.events[|s.events|]);
      }
    case SetOp(x, value, line) =>
      LineAndSetFacts(s, 0, x, value, line);
      if |s.stack| > 0 {
        assert s.stack[|s.stack| - 1] in s.frames;
        RecordedAfterOther(s, r, r.events[|s.events|]);
      }
    case LogOp(message, line) =>
      LogFacts(s, message, line);
      RecordedAfterOther(s, r, r.events[|s.events|]);
  }

  lemma ApplyKeepsRecorded(s: TracerState, op: Op)
    requires Inv(s) && Recorded(s)
    ensures Recorded(Apply(s, op))
  {
    match op
    case CallOp(name, args, line) => CallKeepsRecorded(s, name, args, line);
    case ReturnOp(value, line) => if |s.stack| > 0 { ReturnKeepsRecorded(s, value, line); }
    case LineOp(_) => OtherKeepsRecorded(s, op);
    case SetOp(_, _, _) => OtherKeepsRecorded(s, op);
    case LogOp(_, _) => OtherKeepsRecorded(s, op);
    case StepOp(_, _) =>
    case ResetOp =>
  }

  lemma {:induction false} ExecKeepsRecorded(s: TracerState, ops: seq<Op>)
    requires Inv(s) && Recorded(s)
    ensures Recorded(Exec(s, ops))
    decreases |ops|
  {
    if |ops| > 0 {
      ApplyKeepsInv(s, ops[0]);
      ApplyKeepsRecorded(s, ops[0]);
      ExecKeepsRecorded(Apply(s, ops[0]), ops[1..]);
    }
  }

  /** Every timeline a fresh tracer records is nested, with unique CALL ids and its stack as open ids. */
  lemma RunRecorded(ops: seq<Op>)
    ensures Recorded(Run(ops))
  {
    InitInv();
    assert Recorded(Init);
    ExecKeepsRecorded(Init, ops);
  }

  /** What the recursion tree needs of a timeline: CALL events carry their frames, and no frame is its own parent. */
  ghost predicate Drawable(es: seq<TraceEvent>)
  {
    TreeView.CallsCarryFrames(es) && TreeView.NoSelfParent(es)
  }

  /**
   * One operation keeps a timeline drawable: a call's new frame takes the
   * next unused id, while its parent is the top of the stack, which is
   * registered; the other operations append no CALL event.
   */
  lemma ApplyKeepsDrawable(s: TracerState, op: Op)
    requires Inv(s) && Drawable(s.events)
    ensures Drawable(Apply(s, op).events)
  {
    var r := Apply(s, op);
    if op.CallOp? {
      CallFacts(s, op.name, op.args, op.line);
      var id := FrameId(s.frameCount);
      var e := r.events[|s.events|];
      assert e.data.frame.id == id && e.data.frame.parentId == Top(s);
      assert id !in s.frames;
      assert r.events == s.events + [e];
    } else if !op.ResetOp? {
      ApplyEvents(s, op);
      if |r.events| > |s.events| {
        assert r.events == s.events + [r.events[|s.events|]];
      } else {
        assert r.events == s.events;
      }
    }
  }

  lemma {:induction false} ExecKeepsDrawable(s: TracerState, ops: seq<Op>)
    requires Inv(s) && Drawable(s.events)
    ensures Drawable(Exec(s, ops).events)
    decreases |ops|
  {
    if |ops| > 0 {
      ApplyKeepsInv(s, ops[0]);
      ApplyKeepsDrawable(s, ops[0]);
      ExecKeepsDrawable(Apply(s, ops[0]), ops[1..]);
    }
  }

  /**
   * Every timeline a fresh tracer records meets what the recursion tree's
   * `Reset` requires: each CALL event carries its frame and no frame names
   * itself as its parent.
   */
  lemma RecordedTimelinesDrawable(ops: seq<Op>)
    ensures TreeView.CallsCarryFrames(Run(ops).events) && TreeView.NoSelfParent(Run(ops).events)
  {
    InitInv();
    ExecKeepsDrawable(Init, ops);
  }

  /** One operation either clears the events (reset) or keeps them and appends at most one. */
  lemma ApplyEvents(s: TracerState, op: Op)
    requires WellFormed(s)
    ensures op.ResetOp? ==> Apply(s, op).events == []
    ensures !op.ResetOp? ==> |s.events| <= |Apply(s, op).events| <= |s.events| + 1
    ensures !op.ResetOp? ==> Apply(s, op).events[..|s.events|] == s.events
  {
  }

  /**
   * Every prefix of a recorded timeline is the whole timeline of an earlier
   * moment of the same run: some prefix of the operations produced exactly it.
   */
  lemma {:induction false} PrefixOfRun(ops: seq<Op>, m: nat) returns (j: nat)
    requires m <= |Run(ops).events|
    ensures j <= |ops| && Run(ops[..j]).events == Run(ops).events[..m]
    decreases |ops|
  {
    if m == |Run(ops).events| {
      j := |ops|;
      assert ops[..j] == ops;
      return;
    }
    var n := |ops| - 1;
    var init := ops[..n];
    assert ops == init + [ops[n]];
    ExecSnoc(Init, init, ops[n]);
    var s := Run(init);
    ApplyEvents(s, ops[n]);
    if ops[n].ResetOp? {
      assert false;
    }
    assert m <= |s.events|;
    j := PrefixOfRun(init, m);
    assert ops[..j] == init[..j];
    assert Run(ops).events[..m] == Run(ops).events[..|s.events|][..m];
  }

  /**
   * The replays agree with the tracer. For every step `index` of a recorded
   * timeline there is a moment of the run whose stack (bottom first) is the
   * id list of main.js's 2D stack, script.js's stack order and the 3D view's
   * kept CALL events, and whose stacked ids are the tree's and the 3D view's
   * active sets and script.js's active frame keys; the tree's active set is
   * also its created ids minus its returned ids.
   */
  lemma ReplaysAgreeWithTracer(ops: seq<Op>, index: nat) returns (j: nat)
    requires index < |Run(ops).events|
    ensures j <= |ops|
    ensures var es := Run(ops).events[..index + 1];
      var stack := SomeIds(Run(ops[..j]).stack);
      IdsOf(Replay2D(es)) == stack &&
      ReplayScript(es).stackOrder == stack &&
      ReplayScript(es).activeFrames.Keys == Elems(stack) &&
      ReplayTree(es).active == Elems(stack) &&
      ReplayTree(es).active == ReplayTree(es).created - ReplayTree(es).returned &&
      IdsOf(Replay3D(es).currentFrames) == stack &&
      Replay3D(es).activeIds == Elems(stack)
  {
    j := PrefixOfRun(ops, index + 1);
    var es := Run(ops).events[..index + 1];
    RunRecorded(ops[..j]);
    Replay2DAgrees(es);
    ReplayScriptAgrees(es);
    ReplayTreeAgrees(es);
    Replay3DAgrees(es);
  }
}
