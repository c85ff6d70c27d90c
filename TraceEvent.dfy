/**
 * One timeline entry (src/core/TraceEvent.js). The random `id` and the
 * `timestamp` are not part of the model; everything else is.
 */
module Events {
  import opened Wrappers
  import opened Values
  import opened Frames

  /** The `type` tag: the tracer emits the first five; 'UPDATE' and 'ERROR' are recognised by consumers. */
  datatype EventType = Call | Return | Line | Var | Log | Update | Error

  /** The kind-specific payload, one alternative per shape the tracer builds (`{}` is `NoData`). */
  datatype EventData =
    | CallData(frame: FrameSnap, stackDepth: int)
    | ReturnData(frame: FrameSnap, returnValue: Value, stackDepth: int)
    | VarData(frameId: string, varName: string, value: Value, locals: map<string, Value>)
    | LogData(message: Value)
    | NoData

  datatype TraceEvent = TraceEvent(
    kind: EventType,
    data: EventData,
    message: string,
    lineNumber: Option<int>,
    frameId: Option<string>)

  /** The deep copy the constructor makes of its `data` argument. */
  function CopyData(d: EventData): (r: EventData)
    ensures d.CallData? <==> r.CallData?
    ensures d.ReturnData? <==> r.ReturnData?
    ensures d.VarData? <==> r.VarData?
    ensures d.LogData? <==> r.LogData?
    ensures d.CallData? ==> r.frame == CopySnap(d.frame) && r.stackDepth == d.stackDepth
    ensures d.ReturnData? ==> r.frame == CopySnap(d.frame) && r.stackDepth == d.stackDepth
    ensures d.VarData? ==> r.frameId == d.frameId && r.varName == d.varName
  {
    match d
    case CallData(f, k) => CallData(CopySnap(f), k)
    case ReturnData(f, v, k) => ReturnData(CopySnap(f), JsonCopy(v), k)
    case VarData(id, x, v, locals) => VarData(id, x, JsonCopy(v), CopyFields(locals))
    case LogData(m) => LogData(JsonCopy(m))
    case NoData => NoData
  }

  /**
   * `new TraceEvent(type, data, message, lineNumber = null, frameId = null)`:
   * the tag, message, line and frame id are stored as given, the payload as a
   * deep copy.
   */
  function NewTraceEvent(kind: EventType, data: EventData, message: string,
                         lineNumber: Option<int> := None, frameId: Option<string> := None): (e: TraceEvent)
    ensures e.kind == kind && e.message == message
    ensures e.lineNumber == lineNumber && e.frameId == frameId
    ensures e.data == CopyData(data)
  {
    TraceEvent(kind, CopyData(data), message, lineNumber, frameId)
  }

  /** Copying a payload that is already a copy changes nothing: a stored payload is final. */
  lemma CopyDataIdempotent(d: EventData)
    ensures CopyData(CopyData(d)) == CopyData(d)
  {
    match d
    case CallData(f, _) =>
      CopyFieldsIdempotent(f.args);
      CopyFieldsIdempotent(f.locals);
      JsonCopyIdempotent(f.returnValue);
    case ReturnData(f, v, _) =>
      CopyFieldsIdempotent(f.args);
      CopyFieldsIdempotent(f.locals);
      JsonCopyIdempotent(f.returnValue);
      JsonCopyIdempotent(v);
    case VarData(_, _, v, locals) =>
      JsonCopyIdempotent(v);
      CopyFieldsIdempotent(locals);
    case LogData(m) =>
      JsonCopyIdempotent(m);
    case NoData =>
  }
}
