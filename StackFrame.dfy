/**
 * One function activation (src/core/StackFrame.js). `StackFrame` is the
 * object with its two mutators; `FrameSnap` is its value at one moment, and
 * `WithLocal` / `WithReturn` say what the mutators do to that value. Events
 * store such values, and the tracer keeps its registry as values too.
 */
module Frames {
  import opened Wrappers
  import opened Values

  /** 'ACTIVE' or 'RETURNED' (a third name, 'PRUNED', appears only in a comment). */
  datatype FrameState = Active | Returned

  /** The value of a frame at one moment, as stored in events and in the abstract tracer state. */
  datatype FrameSnap = FrameSnap(
    id: string,
    name: string,
    args: map<string, Value>,
    parentId: Option<string>,
    depth: int,
    locals: map<string, Value>,
    returnValue: Value,
    state: FrameState)

  /** The frame a constructor call produces: no locals, no return value yet, active. */
  function NewSnap(id: string, name: string, args: map<string, Value>, parentId: Option<string>, depth: int): (f: FrameSnap)
    ensures f.id == id && f.name == name && f.args == args && f.parentId == parentId && f.depth == depth
    ensures f.locals == map[] && f.returnValue == Undefined && f.state == Active
  {
    FrameSnap(id, name, args, parentId, depth, map[], Undefined, Active)
  }

  /** The JSON round trip applied to a frame (a `TraceEvent` stores frames this way). */
  function CopySnap(f: FrameSnap): (r: FrameSnap)
    ensures r.id == f.id && r.name == f.name && r.parentId == f.parentId && r.depth == f.depth
    ensures r.state == f.state
    ensures r.args.Keys <= f.args.Keys && r.locals.Keys <= f.locals.Keys
    ensures r.returnValue.Undefined? <==> f.returnValue.Undefined?
  {
    f.(args := CopyFields(f.args), locals := CopyFields(f.locals), returnValue := JsonCopy(f.returnValue))
  }

  /** `setLocal(key, value)` on a frame value: one local set, everything else kept. */
  function WithLocal(f: FrameSnap, key: string, value: Value): (r: FrameSnap)
    ensures key in r.locals && r.locals[key] == value
    ensures forall k :: k in f.locals && k != key ==> k in r.locals && r.locals[k] == f.locals[k]
    ensures r.locals.Keys == f.locals.Keys + {key}
    ensures r == f.(locals := r.locals)
  {
    f.(locals := f.locals[key := value])
  }

  /** `setReturn(value)` on a frame value: the return value recorded, the frame marked returned. */
  function WithReturn(f: FrameSnap, value: Value): (r: FrameSnap)
    ensures r.returnValue == value && r.state == Returned
    ensures r == f.(returnValue := value, state := Returned)
  {
    f.(returnValue := value, state := Returned)
  }

  class StackFrame {
    const id: string
    const name: string
    const args: map<string, Value>
    const parentId: Option<string>
    const depth: int
    var locals: map<string, Value>
    var returnValue: Value
    var state: FrameState

    /** The current field values of this frame. */
    function Snap(): (f: FrameSnap)
      reads this
    {
      FrameSnap(id, name, args, parentId, depth, locals, returnValue, state)
    }

    /** `parentId` defaults to null and `depth` to 0 when the caller omits them. */
    constructor (id: string, name: string, args: map<string, Value>, parentId: Option<string> := None, depth: int := 0)
      ensures Snap() == NewSnap(id, name, args, parentId, depth)
    {
      this.id := id;
      this.name := name;
      this.args := args;
      this.locals := map[];
      this.parentId := parentId;
      this.depth := depth;
      this.returnValue := Undefined;
      this.state := Active;
    }

    /** Sets one local; every other local and every other field keeps its value. */
    method SetLocal(key: string, value: Value)
      modifies this
      ensures locals == old(locals)[key := value]
      ensures returnValue == old(returnValue) && state == old(state)
      ensures Snap() == WithLocal(old(Snap()), key, value)
    {
      locals := locals[key := value];
    }

    /** Records the return value and marks the frame returned; nothing else changes. */
    method SetReturn(value: Value)
      modifies this
      ensures returnValue == value && state == Returned
      ensures locals == old(locals)
      ensures Snap() == WithReturn(old(Snap()), value)
    {
      returnValue := value;
      state := Returned;
    }
  }
}
