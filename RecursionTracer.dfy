/**
 * The recording session object of src/core/RecursionTracer.js: an event list,
 * a call stack, a frame registry and the id counter, all updated in place by
 * the methods below. Every method is proved to change the session exactly as
 * `TracerSpec.Apply` says, so the facts proved about `Apply` hold of the object.
 *
 * The stack holds frame ids and the registry holds frame values: in the source
 * the stack and the registry share one mutable frame object per call, and
 * looking the frame up by id from the stack observes the same updates.
 */
module Tracer {
  import opened Wrappers
  import opened Values
  import opened Frames
  import opened Events
  import opened TracerSpec

  class RecursionTracer {
    var events: seq<TraceEvent>
    var stack: seq<string>
    var frames: map<string, FrameSnap>
    var frameCount: nat

    /**
     * Stacked ids are registered and non-empty, and every frame is
     * registered under its own id.
     */
    ghost predicate Valid()
      reads this
      ensures Valid() ==> WellFormed(Abs())
    {
      WellFormed(Abs()) && forall i :: 0 <= i < |stack| ==> |stack[i]| > 0
    }

    /** The session as a value. */
    ghost function Abs(): TracerState
      reads this
    {
      TracerState(events, stack, frames, frameCount)
    }

    constructor ()
      ensures Valid() && Abs() == Init
    {
      events := [];
      stack := [];
      frames := map[];
      frameCount := 0;
    }

    /** Appends one event built by the `TraceEvent` constructor; nothing else changes. */
    method AddEvent(kind: EventType, data: EventData, message: string, lineNumber: Option<int>, frameId: Option<string>)
      modifies this`events
      ensures events == old(events) + [NewTraceEvent(kind, data, message, lineNumber, frameId)]
    {
      var event := NewTraceEvent(kind, data, message, lineNumber, frameId);
      events := events + [event];
    }

    method Call(name: string, args: map<string, Value>, lineNumber: Option<int>) returns (id: string)
      requires Valid()
      modifies this
      ensures id == FrameId(old(frameCount))
      ensures Abs() == Apply(old(Abs()), CallOp(name, args, lineNumber))
      ensures Valid()
    {
      id := FrameId(frameCount);
      frameCount := frameCount + 1;
      var parentId := if |stack| > 0 then Some(stack[|stack| - 1]) else None;
      var depth := |stack|;
      var safeArgs := CopyFields(args);
      var frame := NewSnap(id, name, safeArgs, parentId, depth);
      frames := frames[id := frame];
      stack := stack + [id];
      AddEvent(EventType.Call, CallData(frame, |stack|), "Called function " + name, lineNumber, Some(id));
    }

    method Return(value: Value, lineNumber: Option<int>)
      requires Valid()
      modifies this
      ensures Abs() == Apply(old(Abs()), ReturnOp(value, lineNumber))
      ensures Valid()
    {
      if |stack| == 0 {
        return;
      }
      var top := stack[|stack| - 1];
      stack := stack[..|stack| - 1];
      var frame := WithReturn(frames[top], value);
      frames := frames[top := frame];
      AddEvent(EventType.Return, ReturnData(frame, value, |stack|), "Returning from " + frame.name, lineNumber, Some(frame.id));
    }

    method RegisterLine(lineNumber: int)
      requires Valid()
      modifies this`events
      ensures Abs() == Apply(old(Abs()), LineOp(lineNumber))
      ensures Valid()
    {
      var frameId := if |stack| > 0 then Some(stack[|stack| - 1]) else None;
      // a frame id is a non-empty string, so this truthiness test is a null test
      if frameId.Some? && frameId.value != "" {
        AddEvent(EventType.Line, NoData, "Executing line " + IntToString(lineNumber), Some(lineNumber), frameId);
      }
    }

    method Set(name: string, value: Value, lineNumber: Option<int>)
      requires Valid()
      modifies this
      ensures Abs() == Apply(old(Abs()), SetOp(name, value, lineNumber))
      ensures Valid()
    {
      if |stack| == 0 {
        return;
      }
      var top := stack[|stack| - 1];
      var frame := WithLocal(frames[top], name, value);
      frames := frames[top := frame];
      AddEvent(EventType.Var, VarData(frame.id, name, value, frame.locals), "Updated " + name, lineNumber, Some(frame.id));
    }

    method Log(message: Value, lineNumber: Option<int>)
      requires Valid()
      modifies this`events
      ensures Abs() == Apply(old(Abs()), LogOp(message, lineNumber))
      ensures Valid()
    {
      var frameId := if |stack| > 0 then Some(stack[|stack| - 1]) else None;
      AddEvent(EventType.Log, LogData(message), "Console: " + Display(message), lineNumber, frameId);
    }

    /**
     * The `step` the algorithm classes call. RecursionTracer.js defines no such
     * method; it is modelled as leaving the session untouched.
     */
    method Step(text: string, line: int)
      requires Valid()
      ensures Abs() == Apply(old(Abs()), StepOp(text, line))
    {
    }

    /** Returns the event list itself (the array is handed out, not copied). */
    method GetTimeline() returns (timeline: seq<TraceEvent>)
      requires Valid()
      ensures timeline == Abs().events
    {
      timeline := events;
    }

    method Reset()
      requires Valid()
      modifies this
      ensures Abs() == Apply(old(Abs()), ResetOp)
      ensures Valid()
    {
      events := [];
      stack := [];
      frames := map[];
      frameCount := 0;
    }
  }
}
