/**
 * The frame bookkeeping of src/vis3d/StackVisualizer3D.js. `update` scans
 * the timeline prefix for the frames still open, creates a mesh for each
 * open frame that has none, and removes the meshes of frames that are no
 * longer open. A mesh is an opaque token here, recorded with what it was
 * built from; the THREE.js geometry, textures and z positions are not part
 * of the model.
 */
module StackView3D {
  import opened Wrappers
  import opened Frames
  import opened Events
  import opened Replay

  /** A mesh, as the token `createFrame(id, frameData, depth)` makes from its arguments. */
  datatype Mesh = Mesh(id: Option<string>, frameData: Option<FrameSnap>, depth: nat)

  /**
   * The scan of `update`: a CALL adds its id to `activeIds` and its event to
   * `currentFrames`; a RETURN drops its id and the earliest event with that
   * id (`findIndex` then `splice`). The result is the `Replay3D` fold.
   */
  method ScanActive(index: nat, timeline: seq<TraceEvent>) returns (scan: Scan3D)
    requires index < |timeline|
    ensures scan == Replay3D(timeline[..index + 1])
  {
    var currentFrames: seq<TraceEvent> := [];
    var activeIds: set<Option<string>> := {};
    var i := 0;
    while i <= index
      invariant 0 <= i <= index + 1
      invariant Scan3D(currentFrames, activeIds) == Replay3D(timeline[..i])
    {
      var e := timeline[i];
      currentFrames, activeIds := ScanEvent(currentFrames, activeIds, e);
      assert timeline[..i + 1] == timeline[..i] + [e];
      i := i + 1;
    }
    scan := Scan3D(currentFrames, activeIds);
  }

  /** One event of the scan, on the two variables `update` keeps. */
  method ScanEvent(currentFrames: seq<TraceEvent>, activeIds: set<Option<string>>, e: TraceEvent)
    returns (frames': seq<TraceEvent>, ids': set<Option<string>>)
    ensures Scan3D(frames', ids') == Step3D(Scan3D(currentFrames, activeIds), e)
  {
    frames', ids' := currentFrames, activeIds;
    if e.kind == Call {
      ids' := ids' + {e.frameId};
      frames' := frames' + [e];
    } else if e.kind == Return {
      ids' := ids' - {e.frameId};
      var idx := FindIndex(frames', e.frameId);
      if idx != -1 {
        frames' := RemoveAt(frames', idx);
      }
    }
  }

  /** `findIndex(x => x.frameId === id)`: the earliest matching position, or -1. */
  method FindIndex(frames: seq<TraceEvent>, id: Option<string>) returns (idx: int)
    ensures -1 <= idx < |frames|
    ensures idx == -1 <==> FirstMatch(frames, id).None?
    ensures idx != -1 ==> FirstMatch(frames, id) == Some(idx as nat)
  {
    var k := 0;
    while k < |frames|
      invariant 0 <= k <= |frames|
      invariant forall j :: 0 <= j < k ==> frames[j].frameId != id
    {
      if frames[k].frameId == id {
        return k;
      }
      k := k + 1;
    }
    return -1;
  }

  /** A position whose id occurs nowhere before it is the earliest match of that id. */
  lemma FirstMatchAt(frames: seq<TraceEvent>, d: nat)
    requires d < |frames|
    requires forall j :: 0 <= j < d ==> frames[j].frameId != frames[d].frameId
    ensures FirstMatch(frames, frames[d].frameId) == Some(d)
  {
  }

  /** The mesh each kept CALL event needs, at its stack position. */
  function MeshFor(e: TraceEvent, depth: nat): Mesh
  {
    Mesh(e.frameId, CalledFrame(e), depth)
  }

  class StackVisualizer3D {
    /** `frames`: the mesh shown for each frame id. */
    var frames: map<Option<string>, Mesh>

    constructor ()
      ensures frames == map[]
    {
      frames := map[];
    }

    /**
     * `update(index, timeline)`. Afterwards a frame id has a mesh exactly when
     * it had one or is among the kept CALL events, and it is still active;
     * a mesh that already existed is kept as it was, and a new one is made
     * from the earliest kept CALL event with that id, at its position.
     */
    method Update(index: nat, timeline: seq<TraceEvent>)
      requires index < |timeline|
      modifies this
      ensures var scan := Replay3D(timeline[..index + 1]);
        frames.Keys == (old(frames).Keys + Elems(IdsOf(scan.currentFrames))) * scan.activeIds
      ensures forall id :: id in frames && id in old(frames) ==> frames[id] == old(frames)[id]
      ensures var scan := Replay3D(timeline[..index + 1]);
        forall id :: id in frames && id !in old(frames) ==>
          FirstMatch(scan.currentFrames, id).Some? &&
          var d := FirstMatch(scan.currentFrames, id).value;
          frames[id] == MeshFor(scan.currentFrames[d], d)
    {
      var scan := ScanActive(index, timeline);
      CreateMissing(scan.currentFrames);
      Prune(scan.activeIds);
      assert frames.Keys == (old(frames).Keys + Elems(IdsOf(scan.currentFrames))) * scan.activeIds;
    }

    /** The `forEach` over the kept CALL events: a mesh for each id that has none. */
    method CreateMissing(currentFrames: seq<TraceEvent>)
      modifies this
      ensures frames.Keys == old(frames).Keys + Elems(IdsOf(currentFrames))
      ensures forall id :: id in old(frames) ==> frames[id] == old(frames)[id]
      ensures forall id :: id in frames && id !in old(frames) ==>
        FirstMatch(currentFrames, id).Some? &&
        frames[id] == MeshFor(currentFrames[FirstMatch(currentFrames, id).value], FirstMatch(currentFrames, id).value)
    {
      var d := 0;
      while d < |currentFrames|
        invariant 0 <= d <= |currentFrames|
        invariant frames.Keys == old(frames).Keys + Elems(IdsOf(currentFrames[..d]))
        invariant forall id :: id in old(frames) ==> frames[id] == old(frames)[id]
        invariant forall id :: id in frames && id !in old(frames) ==>
          FirstMatch(currentFrames, id).Some? && FirstMatch(currentFrames, id).value < d &&
          frames[id] == MeshFor(currentFrames[FirstMatch(currentFrames, id).value], FirstMatch(currentFrames, id).value)
      {
        var eCall := currentFrames[d];
        assert currentFrames[..d + 1] == currentFrames[..d] + [eCall];
        assert IdsOf(currentFrames[..d + 1]) == IdsOf(currentFrames[..d]) + [eCall.frameId];
        if eCall.frameId !in frames {
          assert eCall.frameId !in IdsOf(currentFrames[..d]);
          FirstMatchAt(currentFrames, d);
          frames := frames[eCall.frameId := MeshFor(eCall, d)];
        }
        d := d + 1;
      }
      assert currentFrames[..d] == currentFrames;
    }

    /** The `forEach` over the meshes: each one whose id is no longer active is removed. */
    method Prune(activeIds: set<Option<string>>)
      modifies this
      ensures forall id :: id in frames <==> id in old(frames) && id in activeIds
      ensures forall id :: id in frames ==> frames[id] == old(frames)[id]
    {
      var ids := frames.Keys;
      while ids != {}
        invariant forall id :: id in frames <==> id in old(frames) && (id in ids || id in activeIds)
        invariant forall id :: id in frames ==> frames[id] == old(frames)[id]
        decreases |ids|
      {
        var id :| id in ids;
        if id !in activeIds {
          frames := frames - {id};
        }
        ids := ids - {id};
      }
    }

    /** `reset()`: every mesh is removed. */
    method Reset()
      modifies this
      ensures frames == map[]
    {
      frames := map[];
    }
  }

  /**
   * On a nested timeline every kept frame has a mesh after `update`, and no
   * mesh belongs to a frame outside the active set.
   */
  lemma UpdateCoversActive(es: seq<TraceEvent>, before: set<Option<string>>, after: set<Option<string>>)
    requires Nested(es)
    requires after == (before + Elems(IdsOf(Replay3D(es).currentFrames))) * Replay3D(es).activeIds
    ensures after == Replay3D(es).activeIds
    ensures Elems(IdsOf(Replay3D(es).currentFrames)) == after
  {
    Replay3DAgrees(es);
  }
}
