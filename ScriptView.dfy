/**
 * The replay and navigation logic of script.js (the front end that runs the
 * hand-instrumented algorithms): `renderStack` rebuilds the active frames
 * and their order for step `index`, `updateVisuals` ignores an index outside
 * the timeline, and the step buttons move `currentIndex`. The DOM writes,
 * code highlighting and the `setInterval` timer are not part of the model.
 */
module ScriptView {
  import opened Wrappers
  import opened Frames
  import opened Events
  import opened Replay

  /**
   * The reconstruction loop of `renderStack`: the active-frame map and the
   * id order after scanning events 0..index, which is the `ReplayScript`
   * fold of the prefix.
   */
  method RenderStack(index: nat, timeline: seq<TraceEvent>) returns (state: ScriptStack)
    requires index < |timeline|
    ensures state == ReplayScript(timeline[..index + 1])
  {
    var activeFrames: map<Option<string>, ScriptFrame> := map[];
    var stackOrder: seq<Option<string>> := [];
    var i := 0;
    while i <= index
      invariant 0 <= i <= index + 1
      invariant ScriptStack(activeFrames, stackOrder) == ReplayScript(timeline[..i])
    {
      var e := timeline[i];
      ghost var before := ScriptStack(activeFrames, stackOrder);
      if e.kind == Call {
        activeFrames := activeFrames[e.frameId := ScriptFrame(CalledFrame(e), Active, map[])];
        stackOrder := stackOrder + [e.frameId];
      } else if e.kind == Return {
        if e.frameId in activeFrames {
          // the frame is marked returned, then dropped: only the drop is observable
          if |stackOrder| > 0 {
            stackOrder := stackOrder[..|stackOrder| - 1];
          }
          activeFrames := activeFrames - {e.frameId};
        }
      } else if e.kind == Var || e.kind == Update {
        if e.frameId in activeFrames {
          var frame := activeFrames[e.frameId];
          var locals := frame.locals + VarLocals(e.data);
          locals := locals[VarName(e.data) := VarValue(e.data)];
          activeFrames := activeFrames[e.frameId := frame.(locals := locals)];
        }
      }
      assert ScriptStack(activeFrames, stackOrder) == StepScript(before, e);
      assert timeline[..i + 1] == timeline[..i] + [e];
      i := i + 1;
    }
    state := ScriptStack(activeFrames, stackOrder);
  }

  /**
   * `updateVisuals(index)`: an index outside [0, length) draws nothing;
   * otherwise the stack panel shows the reconstruction for that step.
   */
  method UpdateVisuals(index: int, timeline: seq<TraceEvent>) returns (shown: Option<ScriptStack>)
    ensures shown.None? <==> (index < 0 || index >= |timeline|)
    ensures shown.Some? ==> 0 <= index < |timeline| && shown.value == ReplayScript(timeline[..index + 1])
  {
    if index < 0 || index >= |timeline| {
      return None;
    }
    var state := RenderStack(index, timeline);
    shown := Some(state);
  }

  /** The playback globals of script.js. */
  class Player {
    var timeline: seq<TraceEvent>
    var currentIndex: int
    var isPlaying: bool

    ghost predicate InRange()
      reads this
    {
      0 <= currentIndex && (|timeline| > 0 ==> currentIndex < |timeline|)
    }

    /** The state `runSimulation` leaves: the new timeline at step 0, not playing. */
    constructor (timeline: seq<TraceEvent>)
      ensures this.timeline == timeline && currentIndex == 0 && !isPlaying
      ensures InRange()
    {
      this.timeline := timeline;
      currentIndex := 0;
      isPlaying := false;
    }

    /** `stepForward`: one step on, or, at the last step, pause instead. */
    method StepForward()
      modifies this`currentIndex, this`isPlaying
      ensures old(currentIndex) < |timeline| - 1 ==>
        currentIndex == old(currentIndex) + 1 && isPlaying == old(isPlaying)
      ensures old(currentIndex) >= |timeline| - 1 ==> currentIndex == old(currentIndex) && !isPlaying
      ensures old(InRange()) ==> InRange()
    {
      if currentIndex < |timeline| - 1 {
        currentIndex := currentIndex + 1;
      } else {
        isPlaying := false;
      }
    }

    /** `stepBackward`: one step back unless at step 0. */
    method StepBackward()
      modifies this`currentIndex
      ensures old(currentIndex) > 0 ==> currentIndex == old(currentIndex) - 1
      ensures old(currentIndex) <= 0 ==> currentIndex == old(currentIndex)
      ensures old(InRange()) ==> InRange()
    {
      if currentIndex > 0 {
        currentIndex := currentIndex - 1;
      }
    }

    /**
     * `jumpToStep(idx)`: the index is taken as given, with no range check;
     * `UpdateVisuals` is what ignores an index outside the timeline.
     */
    method JumpToStep(idx: int)
      modifies this`currentIndex
      ensures currentIndex == idx
    {
      currentIndex := idx;
    }
  }
}
