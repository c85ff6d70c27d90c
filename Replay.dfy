/**
 * The four ways the front ends rebuild "the call stack at step i" from a
 * timeline, each as a fold over the event prefix, next to a reference
 * reading of the timeline (`OpenIds`). On a strictly nested timeline all four
 * agree with the reference.
 */
module Replay {
  import opened Wrappers
  import opened Values
  import opened Frames
  import opened Events

  /** No element occurs twice. */
  ghost predicate Distinct<T>(s: seq<T>)
  {
    forall i, j :: 0 <= i < j < |s| ==> s[i] != s[j]
  }

  /** The `frameId` of each event, in order. */
  function IdsOf(es: seq<TraceEvent>): (ids: seq<Option<string>>)
    ensures |ids| == |es|
    ensures forall i :: 0 <= i < |es| ==> ids[i] == es[i].frameId
  {
    seq(|es|, i requires 0 <= i < |es| => es[i].frameId)
  }

  /** The elements of a sequence as a set. */
  function Elems(s: seq<Option<string>>): (r: set<Option<string>>)
    ensures forall x :: x in r <==> x in s
  {
    set x | x in s
  }

  /** `s` without its element at `j` (`Array.prototype.splice(j, 1)`). */
  function RemoveAt<T>(s: seq<T>, j: nat): (r: seq<T>)
    requires j < |s|
    ensures |r| == |s| - 1
    ensures forall i :: 0 <= i < j ==> r[i] == s[i]
    ensures forall i :: j <= i < |r| ==> r[i] == s[i + 1]
  {
    s[..j] + s[j + 1..]
  }

  // ---------------------------------------------------------------
  // The reference reading: the ids of the calls still open
  // ---------------------------------------------------------------

  /**
   * The ids of the calls that are still open after the events: a CALL opens
   * its id, a RETURN closes the most recent open call when it names it.
   */
  function OpenIds(es: seq<TraceEvent>): seq<Option<string>>
    decreases |es|
  {
    if |es| == 0 then []
    else
      var open := OpenIds(es[..|es| - 1]);
      var e := es[|es| - 1];
      if e.kind == Call then open + [e.frameId]
      else if e.kind == Return && |open| > 0 && open[|open| - 1] == e.frameId then open[..|open| - 1]
      else open
  }

  /**
   * A strictly nested timeline: a CALL never reuses an open id, and every
   * RETURN names the most recent open call.
   */
  ghost predicate Nested(es: seq<TraceEvent>)
    decreases |es|
  {
    |es| == 0 ||
    (var open := OpenIds(es[..|es| - 1]);
     var e := es[|es| - 1];
     Nested(es[..|es| - 1]) &&
     (e.kind == Call ==> e.frameId !in open) &&
     (e.kind == Return ==> |open| > 0 && open[|open| - 1] == e.frameId))
  }

  /** The ids the CALL events carry, in order. */
  function CallIds(es: seq<TraceEvent>): seq<Option<string>>
    decreases |es|
  {
    if |es| == 0 then []
    else if es[|es| - 1].kind == Call then CallIds(es[..|es| - 1]) + [es[|es| - 1].frameId]
    else CallIds(es[..|es| - 1])
  }

  /** The ids the RETURN events carry, in order. */
  function ReturnIds(es: seq<TraceEvent>): seq<Option<string>>
    decreases |es|
  {
    if |es| == 0 then []
    else if es[|es| - 1].kind == Return then ReturnIds(es[..|es| - 1]) + [es[|es| - 1].frameId]
    else ReturnIds(es[..|es| - 1])
  }

  /** Every CALL carries an id no earlier CALL carried. */
  ghost predicate UniqueCalls(es: seq<TraceEvent>)
  {
    Distinct(CallIds(es))
  }

  lemma Snoc<T>(s: seq<T>, x: T)
    ensures (s + [x])[..|s|] == s && (s + [x])[|s|] == x
  {
  }

  /** On a nested timeline no id is open twice. */
  lemma {:induction false} NestedDistinct(es: seq<TraceEvent>)
    requires Nested(es)
    ensures Distinct(OpenIds(es))
    decreases |es|
  {
    if |es| > 0 {
      var init := es[..|es| - 1];
      NestedDistinct(init);
      var open := OpenIds(init);
      if es[|es| - 1].kind == Call {
        assert OpenIds(es) == open + [es[|es| - 1].frameId];
      } else if es[|es| - 1].kind == Return {
        assert OpenIds(es) == open[..|open| - 1];
      }
    }
  }

  /** Every prefix of a nested timeline is nested. */
  lemma {:induction false} NestedPrefix(es: seq<TraceEvent>, m: nat)
    requires Nested(es) && m <= |es|
    ensures Nested(es[..m])
    decreases |es|
  {
    if m < |es| {
      assert es[..|es| - 1][..m] == es[..m];
      NestedPrefix(es[..|es| - 1], m);
    } else {
      assert es[..m] == es;
    }
  }

  // ---------------------------------------------------------------
  // main.js render2DStack: the CALL events still on the stack
  // ---------------------------------------------------------------

  /** The index of the latest event in `stack` with the given frame id (the backwards search). */
  function LatestMatch(stack: seq<TraceEvent>, id: Option<string>): (r: Option<nat>)
    ensures r.Some? ==> r.value < |stack| && stack[r.value].frameId == id
    ensures r.Some? ==> forall j :: r.value < j < |stack| ==> stack[j].frameId != id
    ensures r.None? ==> forall j :: 0 <= j < |stack| ==> stack[j].frameId != id
    decreases |stack|
  {
    if |stack| == 0 then None
    else if stack[|stack| - 1].frameId == id then Some(|stack| - 1)
    else LatestMatch(stack[..|stack| - 1], id)
  }

  /**
   * One event applied to the 2D stack: a CALL is pushed, a RETURN removes the
   * latest entry with its id (none when no entry has it), anything else is ignored.
   */
  function Step2D(stack: seq<TraceEvent>, e: TraceEvent): (r: seq<TraceEvent>)
    ensures e.kind == Call ==> r == stack + [e]
    ensures e.kind == Return ==> |r| == |stack| || |r| == |stack| - 1
    ensures e.kind == Return && (forall j :: 0 <= j < |stack| ==> stack[j].frameId != e.frameId) ==> r == stack
    ensures e.kind != Call && e.kind != Return ==> r == stack
    ensures forall x :: x in r ==> x in stack || x == e
  {
    if e.kind == Call then stack + [e]
    else if e.kind == Return then
      match LatestMatch(stack, e.frameId)
      case None => stack
      case Some(j) => RemoveAt(stack, j)
    else stack
  }

  /** `activeStack` after scanning the events. */
  function Replay2D(es: seq<TraceEvent>): seq<TraceEvent>
    decreases |es|
  {
    if |es| == 0 then [] else Step2D(Replay2D(es[..|es| - 1]), es[|es| - 1])
  }

  /** The 2D stack holds only CALL events of the scanned prefix. */
  lemma {:induction false} Replay2DHoldsCalls(es: seq<TraceEvent>)
    ensures forall x :: x in Replay2D(es) ==> x in es && x.kind == Call
    decreases |es|
  {
    if |es| > 0 {
      var init := es[..|es| - 1];
      Replay2DHoldsCalls(init);
      forall x | x in Replay2D(es) ensures x in es && x.kind == Call {
        if x in Replay2D(init) {
          assert x in init;
        }
      }
    }
  }

  /** On a nested timeline the 2D stack's ids are the open ids. */
  lemma {:induction false} Replay2DAgrees(es: seq<TraceEvent>)
    requires Nested(es)
    ensures IdsOf(Replay2D(es)) == OpenIds(es)
    decreases |es|
  {
    if |es| > 0 {
      var init := es[..|es| - 1];
      var e := es[|es| - 1];
      Replay2DAgrees(init);
      var stack := Replay2D(init);
      if e.kind == Return {
        var n := |stack| - 1;
        assert stack[n].frameId == e.frameId;
        assert LatestMatch(stack, e.frameId) == Some(n);
        assert IdsOf(stack[..n]) == IdsOf(stack)[..n];
      }
    }
  }

  // ---------------------------------------------------------------
  // script.js renderStack: a map of active frames and an id order
  // ---------------------------------------------------------------

  /** A frame as script.js keeps it: the CALL's frame copy (if any), its state and its locals. */
  datatype ScriptFrame = ScriptFrame(frame: Option<FrameSnap>, state: FrameState, locals: map<string, Value>)

  datatype ScriptStack = ScriptStack(activeFrames: map<Option<string>, ScriptFrame>, stackOrder: seq<Option<string>>)

  /** The frame a CALL event carries (`e.data.frame`), if it carries one. */
  function CalledFrame(e: TraceEvent): Option<FrameSnap>
  {
    if e.data.CallData? then Some(e.data.frame) else None
  }

  /** `e.data.locals`, `e.data.varName` and `e.data.value`; absent fields read as `{}`, "undefined" and undefined. */
  function VarLocals(d: EventData): map<string, Value>
  {
    if d.VarData? then d.locals else map[]
  }

  function VarName(d: EventData): string
  {
    if d.VarData? then d.varName else "undefined"
  }

  function VarValue(d: EventData): Value
  {
    if d.VarData? then d.value else Undefined
  }

  /** Array.prototype.pop, which leaves an empty array unchanged. */
  function Pop<T>(s: seq<T>): (r: seq<T>)
    ensures |s| > 0 ==> r == s[..|s| - 1]
    ensures |s| == 0 ==> r == s
  {
    if |s| > 0 then s[..|s| - 1] else s
  }

  /**
   * One event applied to script.js's state: a CALL registers an active frame
   * with empty locals and appends its id; a RETURN of a known id pops the top
   * of the order and forgets the id; a VAR or UPDATE of a known id merges the
   * payload's locals and then sets the named variable; anything else is ignored.
   */
  function StepScript(st: ScriptStack, e: TraceEvent): (r: ScriptStack)
    ensures e.kind == Call ==>
      r.activeFrames == st.activeFrames[e.frameId := ScriptFrame(CalledFrame(e), Active, map[])] &&
      r.stackOrder == st.stackOrder + [e.frameId]
    ensures e.kind == Return && e.frameId in st.activeFrames ==>
      r.activeFrames == st.activeFrames - {e.frameId} && r.stackOrder == Pop(st.stackOrder)
    ensures (e.kind == Var || e.kind == Update) && e.frameId in st.activeFrames ==>
      r.stackOrder == st.stackOrder && r.activeFrames.Keys == st.activeFrames.Keys &&
      VarName(e.data) in r.activeFrames[e.frameId].locals &&
      r.activeFrames[e.frameId].locals[VarName(e.data)] == VarValue(e.data) &&
      forall id :: id in st.activeFrames && id != e.frameId ==> r.activeFrames[id] == st.activeFrames[id]
    ensures e.kind != Call && e.frameId !in st.activeFrames ==> r == st
  {
    var id := e.frameId;
    if e.kind == Call then
      ScriptStack(st.activeFrames[id := ScriptFrame(CalledFrame(e), Active, map[])], st.stackOrder + [id])
    else if e.kind == Return then
      if id in st.activeFrames then ScriptStack(st.activeFrames - {id}, Pop(st.stackOrder)) else st
    else if e.kind == Var || e.kind == Update then
      if id in st.activeFrames then
        var f := st.activeFrames[id];
        var merged := f.locals + VarLocals(e.data);
        ScriptStack(st.activeFrames[id := f.(locals := merged[VarName(e.data) := VarValue(e.data)])], st.stackOrder)
      else st
    else st
  }

  function ReplayScript(es: seq<TraceEvent>): ScriptStack
    decreases |es|
  {
    if |es| == 0 then ScriptStack(map[], []) else StepScript(ReplayScript(es[..|es| - 1]), es[|es| - 1])
  }

  /** On a nested timeline the order is the open ids and the map holds exactly those ids. */
  lemma {:induction false} ReplayScriptAgrees(es: seq<TraceEvent>)
    requires Nested(es)
    ensures ReplayScript(es).stackOrder == OpenIds(es)
    ensures ReplayScript(es).activeFrames.Keys == Elems(OpenIds(es))
    decreases |es|
  {
    if |es| > 0 {
      var init := es[..|es| - 1];
      var e := es[|es| - 1];
      ReplayScriptAgrees(init);
      NestedDistinct(init);
      var open := OpenIds(init);
      if e.kind == Return {
        var n := |open| - 1;
        assert open == open[..n] + [open[n]];
        assert Elems(open[..n]) == Elems(open) - {e.frameId};
      }
    }
  }

  // ---------------------------------------------------------------
  // TreeVisualizer update: created, active and returned id sets
  // ---------------------------------------------------------------

  datatype TreeSets = TreeSets(created: set<Option<string>>, active: set<Option<string>>, returned: set<Option<string>>)

  /** A CALL adds its id to created and active; a RETURN moves it from active to returned. */
  function StepTree(t: TreeSets, e: TraceEvent): (r: TreeSets)
    ensures r.active <= t.active + {e.frameId} && t.created <= r.created && t.returned <= r.returned
    ensures e.kind == Return ==> e.frameId !in r.active && e.frameId in r.returned
  {
    if e.kind == Call then t.(created := t.created + {e.frameId}, active := t.active + {e.frameId})
    else if e.kind == Return then t.(active := t.active - {e.frameId}, returned := t.returned + {e.frameId})
    else t
  }

  function ReplayTree(es: seq<TraceEvent>): TreeSets
    decreases |es|
  {
    if |es| == 0 then TreeSets({}, {}, {}) else StepTree(ReplayTree(es[..|es| - 1]), es[|es| - 1])
  }

  /** Active ids are always among the created ids; created and returned collect the CALL and RETURN ids. */
  lemma {:induction false} ReplayTreeSets(es: seq<TraceEvent>)
    ensures ReplayTree(es).active <= ReplayTree(es).created
    ensures ReplayTree(es).created == Elems(CallIds(es))
    ensures ReplayTree(es).returned == Elems(ReturnIds(es))
    decreases |es|
  {
    if |es| > 0 {
      ReplayTreeSets(es[..|es| - 1]);
    }
  }

  /**
   * On a nested timeline whose CALL ids are unique, the active ids are the
   * open ids, active = created minus returned, and no id is both active and returned.
   */
  lemma {:induction false} ReplayTreeAgrees(es: seq<TraceEvent>)
    requires Nested(es) && UniqueCalls(es)
    ensures ReplayTree(es).active == Elems(OpenIds(es))
    ensures ReplayTree(es).active == ReplayTree(es).created - ReplayTree(es).returned
    ensures ReplayTree(es).returned <= ReplayTree(es).created
    decreases |es|
  {
    if |es| > 0 {
      var init := es[..|es| - 1];
      var e := es[|es| - 1];
      assert CallIds(init) == CallIds(es)[..|CallIds(init)|];
      ReplayTreeAgrees(init);
      NestedDistinct(init);
      ReplayTreeSets(init);
      var open := OpenIds(init);
      if e.kind == Call {
        assert CallIds(es) == CallIds(init) + [e.frameId];
        assert e.frameId !in CallIds(init);
      } else if e.kind == Return {
        var n := |open| - 1;
        assert open == open[..n] + [open[n]];
        assert Elems(open[..n]) == Elems(open) - {e.frameId};
      }
    }
  }

  // ---------------------------------------------------------------
  // StackVisualizer3D update: CALL events in order plus an id set
  // ---------------------------------------------------------------

  datatype Scan3D = Scan3D(currentFrames: seq<TraceEvent>, activeIds: set<Option<string>>)

  /** The index of the earliest event with the given frame id (`findIndex`). */
  function FirstMatch(frames: seq<TraceEvent>, id: Option<string>): (r: Option<nat>)
    ensures r.Some? ==> r.value < |frames| && frames[r.value].frameId == id
    ensures r.Some? ==> forall j :: 0 <= j < r.value ==> frames[j].frameId != id
    ensures r.None? ==> forall j :: 0 <= j < |frames| ==> frames[j].frameId != id
    decreases |frames|
  {
    if |frames| == 0 then None
    else if frames[0].frameId == id then Some(0)
    else match FirstMatch(frames[1..], id)
      case None => None
      case Some(j) => Some(j + 1)
  }

  /** A CALL adds its id and appends the event; a RETURN drops the id and the earliest matching event. */
  function Step3D(s: Scan3D, e: TraceEvent): (r: Scan3D)
    ensures e.kind == Return ==> |r.currentFrames| == |s.currentFrames| || |r.currentFrames| == |s.currentFrames| - 1
    ensures e.kind == Return && (forall j :: 0 <= j < |s.currentFrames| ==> s.currentFrames[j].frameId != e.frameId) ==>
      r.currentFrames == s.currentFrames
    ensures e.kind != Call && e.kind != Return ==> r == s
  {
    if e.kind == Call then Scan3D(s.currentFrames + [e], s.activeIds + {e.frameId})
    else if e.kind == Return then
      var frames := match FirstMatch(s.currentFrames, e.frameId)
        case None => s.currentFrames
        case Some(j) => RemoveAt(s.currentFrames, j);
      Scan3D(frames, s.activeIds - {e.frameId})
    else s
  }

  function Replay3D(es: seq<TraceEvent>): Scan3D
    decreases |es|
  {
    if |es| == 0 then Scan3D([], {}) else Step3D(Replay3D(es[..|es| - 1]), es[|es| - 1])
  }

  /** A RETURN naming the last of distinct open ids drops exactly the last kept event. */
  lemma Return3D(s: Scan3D, open: seq<Option<string>>, e: TraceEvent)
    requires Distinct(open) && |open| > 0 && open[|open| - 1] == e.frameId && e.kind == Return
    requires IdsOf(s.currentFrames) == open && s.activeIds == Elems(open)
    ensures IdsOf(Step3D(s, e).currentFrames) == open[..|open| - 1]
    ensures Step3D(s, e).activeIds == Elems(open[..|open| - 1])
  {
    var frames := s.currentFrames;
    var n := |frames| - 1;
    assert forall j :: 0 <= j < n ==> frames[j].frameId == open[j] != open[n];
    assert FirstMatch(frames, e.frameId) == Some(n);
    assert RemoveAt(frames, n) == frames[..n];
    assert IdsOf(frames[..n]) == IdsOf(frames)[..n];
    assert open == open[..n] + [open[n]];
    assert Elems(open[..n]) == Elems(open) - {e.frameId};
  }

  /** On a nested timeline the kept events' ids are the open ids, and the id set is exactly those ids. */
  lemma {:induction false} Replay3DAgrees(es: seq<TraceEvent>)
    requires Nested(es)
    ensures IdsOf(Replay3D(es).currentFrames) == OpenIds(es)
    ensures Replay3D(es).activeIds == Elems(OpenIds(es))
    decreases |es|
  {
    if |es| > 0 {
      var init := es[..|es| - 1];
      var e := es[|es| - 1];
      Replay3DAgrees(init);
      NestedDistinct(init);
      var frames := Replay3D(init).currentFrames;
      var open := OpenIds(init);
      assert Replay3D(es) == Step3D(Replay3D(init), e);
      if e.kind == Call {
        assert IdsOf(frames + [e]) == IdsOf(frames) + [e.frameId];
      } else if e.kind == Return {
        Return3D(Replay3D(init), open, e);
      }
    }
  }
}
