/**
 * The replay and navigation logic of main.js: `render2DStack` rebuilds the
 * 2D call stack for step `index` by scanning the timeline prefix, and the
 * next / previous buttons and the play loop move the global `currentIndex`.
 * The DOM writes (the stack panel, the slider, the play button's text) are
 * not part of the model.
 */
module MainView {
  import opened Wrappers
  import opened Events
  import opened Replay

  /**
   * The reconstruction loop of `render2DStack`: CALL events are pushed; a
   * RETURN searches the stack from its newest end and splices out the first
   * entry with its frame id. The result is the `Replay2D` fold of the prefix.
   */
  method Render2DStack(index: nat, timeline: seq<TraceEvent>) returns (activeStack: seq<TraceEvent>)
    requires index < |timeline|
    ensures activeStack == Replay2D(timeline[..index + 1])
  {
    activeStack := [];
    var i := 0;
    while i <= index
      invariant 0 <= i <= index + 1
      invariant activeStack == Replay2D(timeline[..i])
    {
      var e := timeline[i];
      if e.kind == Call {
        activeStack := activeStack + [e];
      } else if e.kind == Return {
        activeStack := SpliceReturn(activeStack, e);
      }
      assert timeline[..i + 1] == timeline[..i] + [e];
      i := i + 1;
    }
  }

  /** The RETURN branch: the backwards search for the frame id, then the splice. */
  method SpliceReturn(activeStack: seq<TraceEvent>, e: TraceEvent) returns (next: seq<TraceEvent>)
    requires e.kind == Return
    ensures next == Step2D(activeStack, e)
  {
    next := activeStack;
    var j := |activeStack| - 1;
    while j >= 0
      invariant -1 <= j < |activeStack|
      invariant forall k :: j < k < |activeStack| ==> activeStack[k].frameId != e.frameId
    {
      if activeStack[j].frameId == e.frameId {
        assert LatestMatch(activeStack, e.frameId) == Some(j);
        next := activeStack[..j] + activeStack[j + 1..];
        return;
      }
      j := j - 1;
    }
  }

  /**
   * `updateVisuals(index)`: nothing is drawn unless `timeline[index]` is an
   * event, that is, unless the index lies in [0, length); otherwise the 2D
   * stack panel shows the reconstruction for that step.
   */
  method UpdateVisuals(index: int, timeline: seq<TraceEvent>) returns (shown: Option<seq<TraceEvent>>)
    ensures shown.None? <==> (index < 0 || index >= |timeline|)
    ensures shown.Some? ==> 0 <= index < |timeline| && shown.value == Replay2D(timeline[..index + 1])
  {
    if index < 0 || index >= |timeline| {
      return None;
    }
    var activeStack := Render2DStack(index, timeline);
    shown := Some(activeStack);
  }

  /**
   * The playback state main.js keeps in globals: the timeline of the last
   * run, the step on show and whether the play loop is running.
   */
  class Player {
    var timeline: seq<TraceEvent>
    var currentIndex: int
    var isPlaying: bool

    /** The step on show is a step of the timeline (0 when the timeline is empty). */
    ghost predicate InRange()
      reads this
    {
      0 <= currentIndex && (|timeline| > 0 ==> currentIndex < |timeline|)
    }

    /** The globals as the page loads them: no timeline, step 0, not playing. */
    constructor ()
      ensures timeline == [] && currentIndex == 0 && !isPlaying
      ensures InRange()
    {
      timeline := [];
      currentIndex := 0;
      isPlaying := false;
    }

    /**
     * What `runSimulation` does to the globals: the new timeline is shown
     * from step 0. It does not touch `isPlaying`, so a play loop that was
     * running keeps its flag.
     */
    method Load(newTimeline: seq<TraceEvent>)
      modifies this`timeline, this`currentIndex
      ensures timeline == newTimeline && currentIndex == 0
      ensures InRange()
    {
      // cleared before the program runs, then replaced by the recorded timeline
      timeline := [];
      currentIndex := 0;
      timeline := newTimeline;
    }

    /** The "next" button: one step forward unless already at the last step. */
    method Next()
      modifies this`currentIndex
      ensures old(currentIndex) < |timeline| - 1 ==> currentIndex == old(currentIndex) + 1
      ensures old(currentIndex) >= |timeline| - 1 ==> currentIndex == old(currentIndex)
      ensures old(InRange()) ==> InRange()
    {
      if currentIndex < |timeline| - 1 {
        currentIndex := currentIndex + 1;
      }
    }

    /** The "previous" button: one step back unless already at step 0. */
    method Prev()
      modifies this`currentIndex
      ensures old(currentIndex) > 0 ==> currentIndex == old(currentIndex) - 1
      ensures old(currentIndex) <= 0 ==> currentIndex == old(currentIndex)
      ensures old(InRange()) ==> InRange()
    {
      if currentIndex > 0 {
        currentIndex := currentIndex - 1;
      }
    }

    /**
     * The play/pause button: a running loop is stopped; otherwise playing
     * starts with an immediate tick of the loop, which at the last step stops
     * it again at once. `more` says whether a further tick is scheduled.
     */
    method TogglePlay() returns (more: bool)
      modifies this`currentIndex, this`isPlaying
      ensures old(isPlaying) ==> !isPlaying && !more && currentIndex == old(currentIndex)
      ensures !old(isPlaying) && old(currentIndex) < |timeline| - 1 ==>
        isPlaying && more && currentIndex == old(currentIndex) + 1
      ensures !old(isPlaying) && old(currentIndex) >= |timeline| - 1 ==>
        !isPlaying && !more && currentIndex == old(currentIndex)
      ensures old(InRange()) ==> InRange()
    {
      if isPlaying {
        isPlaying := false;
        more := false;
      } else {
        isPlaying := true;
        more := PlayLoop();
      }
    }

    /**
     * One tick of `playLoop`: nothing when paused; otherwise one step forward,
     * or, at the last step, the loop stops itself. `more` says whether the
     * tick schedules the next one.
     */
    method PlayLoop() returns (more: bool)
      modifies this`currentIndex, this`isPlaying
      ensures !old(isPlaying) ==> !more && currentIndex == old(currentIndex) && isPlaying == old(isPlaying)
      ensures old(isPlaying) && old(currentIndex) < |timeline| - 1 ==>
        more && isPlaying && currentIndex == old(currentIndex) + 1
      ensures old(isPlaying) && old(currentIndex) >= |timeline| - 1 ==>
        !more && !isPlaying && currentIndex == old(currentIndex)
      ensures old(InRange()) ==> InRange()
    {
      more := false;
      if !isPlaying {
        return;
      }
      if currentIndex < |timeline| - 1 {
        currentIndex := currentIndex + 1;
        more := true;
      } else {
        isPlaying := false;
      }
    }
  }
}
