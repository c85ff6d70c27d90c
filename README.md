# Recursion-Xray, modelled in Dafny

Recursion-Xray shows how a recursive program runs. An algorithm, either built in
(factorial, permutations) or a C++ snippet that the transpiler turns into
JavaScript, reports each activation to a `RecursionTracer`. The tracer keeps:

- a call stack of `StackFrame`s;
- a registry of every frame;
- a timeline of `TraceEvent`s (CALL, RETURN, LINE, VAR, LOG).

The user interface then replays a prefix of that timeline and draws the result
for the step on show:

- the 2D stack panel (`main.js`, `script.js`);
- the recursion tree (`TreeVisualizer`);
- the 3D stack (`StackVisualizer3D`).

This project models that core and proves what it promises:

- **The recorder.**
  - `TracerSpec` states the tracer as a value, with one transition per
    operation (`Apply`).
  - It proves the session invariant: ids are fresh and distinct, each stacked
    frame's depth is its position and its parent the frame below, frames off
    the stack have returned, and the stack is as long as the CALL events
    outnumber the RETURN events.
  - It proves what each operation does.
- **The tracer's classes.** `Tracer.RecursionTracer` and
  `Frames.StackFrame` are classes whose methods are proved to follow those
  transitions.
- **The replays.**
  - `Replay` defines the four reconstructions the views perform:
    - the 2D splice from `main.js`;
    - the frame map and order from `script.js`;
    - the tree's created/active/returned sets;
    - the 3D view's kept CALL events.
  - `Agreement` proves that, on every timeline a tracer records, each of them
    equals the tracer's own stack at every step.
  - `MainView`, `ScriptView`, `TreeView` and `StackView3D` hold the loops and
    the navigation state, proved against those definitions.
- **The algorithms.**
  - `Factorial` is proved to return n!. `Permutations` is proved to collect
    every arrangement of its input, each index sequence once, |nums|! in all.
  - They are also proved to leave balanced timelines of a stated shape.
- **The transpiler.**
  - `Transpiler` models the seven rewrite passes of `CppTranspiler.transpile`:
    include/using removal, `cout` to `tracer.log`, the function-header
    rewrite, return instrumentation, type words to `let`, vector methods and
    the line pass.
  - `Driver` models the driver synthesis and the `// Driver` injection of
    `main.js`.

JavaScript values are the datatype `Values.Value`. Strings are `seq<char>`.
Numbers are unbounded integers.

## Model

| member | source | states |
|---|---|---|
| Tracer.RecursionTracer.constructor | src/core/RecursionTracer.js:5-10 | A new tracer is the empty session `Init`: no events, an empty stack, no frames, counter 0; the tracer's invariant holds. |
| Tracer.RecursionTracer.AddEvent | src/core/RecursionTracer.js:75-78 | Exactly one event is appended: a `TraceEvent` built from the arguments with a deep copy of its data. |
| Tracer.RecursionTracer.Call | src/core/RecursionTracer.js:12-30 | `call` returns `frame_k` for the old counter k and changes the tracer exactly as the `CallOp` transition says, keeping the invariant. |
| Tracer.RecursionTracer.Return | src/core/RecursionTracer.js:32-43 | `return` changes the tracer exactly as the `ReturnOp` transition says (nothing on an empty stack), keeping the invariant. |
| Tracer.RecursionTracer.RegisterLine | src/core/RecursionTracer.js:46-53 | `registerLine` follows the `LineOp` transition: a LINE event for the top frame, nothing on an empty stack. |
| Tracer.RecursionTracer.Set | src/core/RecursionTracer.js:56-67 | `set` follows the `SetOp` transition: it updates the top frame's local and appends a VAR event, or does nothing on an empty stack. |
| Tracer.RecursionTracer.Log | src/core/RecursionTracer.js:70-73 | `log` follows the `LogOp` transition: one LOG event, attributed to the top frame or to none. |
| Tracer.RecursionTracer.GetTimeline | src/core/RecursionTracer.js:80-82 | The timeline handed out is the session's event list. |
| Tracer.RecursionTracer.Reset | src/core/RecursionTracer.js:84-89 | After `reset` the tracer is the empty session again and the invariant holds. |
| TracerSpec.FrameId | src/core/RecursionTracer.js:13 | Every id starts with `frame_` followed by the counter's digits. |
| TracerSpec.FrameIdInjective | src/core/RecursionTracer.js:13 | Distinct counter values give distinct frame ids. |
| TracerSpec.Top | src/core/RecursionTracer.js:14 | The parent id is the top of the stack when the stack is non-empty, and null otherwise. |
| TracerSpec.Apply | src/core/RecursionTracer.js:12-89 | Every operation keeps the frame registry well formed: each stacked id is registered, and each frame is registered under its own id. |
| TracerSpec.Exec | src/core/RecursionTracer.js:12-89 | Any sequence of operations keeps the registry well formed. |
| TracerSpec.ExecAppend | src/core/RecursionTracer.js:12-89 | Running two sequences of operations one after the other is running their concatenation. |
| TracerSpec.InitInv | src/core/RecursionTracer.js:5-10 | The empty session satisfies the session invariant. |
| TracerSpec.CallKeepsInv | src/core/RecursionTracer.js:12-30 | `call` keeps the session invariant: a fresh id, distinct stack, depths and parents matching positions, balance. |
| TracerSpec.ReturnKeepsInv | src/core/RecursionTracer.js:32-43 | `return` on a non-empty stack keeps the session invariant; the popped frame is marked returned. |
| TracerSpec.SetKeepsInv | src/core/RecursionTracer.js:56-67 | `set` on a non-empty stack keeps the session invariant. |
| TracerSpec.ApplyKeepsInv | src/core/RecursionTracer.js:12-89 | Every tracer operation keeps the session invariant. |
| TracerSpec.ExecKeepsInv | src/core/RecursionTracer.js:12-89 | Every sequence of operations keeps the session invariant. |
| TracerSpec.RunInv | src/core/RecursionTracer.js:5-89 | Every state a fresh tracer reaches satisfies the invariant, e.g. stack length = #CALL − #RETURN and off-stack frames have returned. |
| TracerSpec.CallFacts | src/core/RecursionTracer.js:12-30 | `call` takes the counter, increments it, pushes one frame (depth = old stack length, parent = old top), registers it, and appends one CALL event with `stackDepth` = new length. |
| TracerSpec.ReturnOnEmpty | src/core/RecursionTracer.js:33 | On an empty stack `return` changes nothing at all. |
| TracerSpec.ReturnFacts | src/core/RecursionTracer.js:35-42 | Otherwise `return` pops the top frame, marks it RETURNED with the value, and appends one RETURN event for it with the depth after the pop. |
| TracerSpec.LineAndSetFacts | src/core/RecursionTracer.js:46-67 | `registerLine` and `set` do nothing on an empty stack; otherwise they append one LINE (resp. VAR) event for the top frame, `set` changing only that frame's locals. |
| TracerSpec.LogFacts | src/core/RecursionTracer.js:70-73 | `log` always appends exactly one LOG event, attributed to the top frame or null, and changes nothing else. |
| TracerSpec.ResetThenCall | src/core/RecursionTracer.js:84-89 | `reset` returns to the empty session, so the next call hands out `frame_0`. |
| TracerSpec.ExecOnlyAppends | src/core/RecursionTracer.js:75-78 | Without a reset, earlier events are never changed: the timeline only grows. |
| TracerSpec.CallSnapshotStaysActive | src/core/TraceEvent.js:14 | The frame snapshot a CALL event stores stays ACTIVE whatever later happens to the frame, because the event holds a deep copy. |
| Frames.NewSnap | src/core/StackFrame.js:6-15 | A new frame carries its id, name, args, parent and depth, with no locals, an undefined return value and state ACTIVE. |
| Frames.WithLocal | src/core/StackFrame.js:17-19 | Setting a local binds that key to the value, keeps every other local, and changes nothing else. |
| Frames.WithReturn | src/core/StackFrame.js:21-24 | Setting the return value stores it and marks the frame RETURNED, nothing else. |
| Frames.CopySnap | src/core/TraceEvent.js:14 | A deep copy keeps a frame's identity, parent, depth and state, and keys only where values were not undefined. |
| Frames.StackFrame.constructor | src/core/StackFrame.js:6-15 | The new object's fields are the `NewSnap` record. |
| Frames.StackFrame.SetLocal | src/core/StackFrame.js:17-19 | `setLocal` updates that one local and leaves the return value and state; the record becomes `WithLocal`. |
| Frames.StackFrame.SetReturn | src/core/StackFrame.js:21-24 | `setReturn` stores the value and marks the frame RETURNED, leaving the locals; the record becomes `WithReturn`. |
| Events.NewTraceEvent | src/core/TraceEvent.js:11-19 | An event keeps its type, message, line number and frame id, and holds a deep copy of its data. |
| Events.CopyData | src/core/TraceEvent.js:14 | The deep copy keeps the data's variant, frame identity and depth, and the VAR event's frame id and name. |
| Events.CopyDataIdempotent | src/core/TraceEvent.js:14 | Copying already copied data changes nothing. |
| Values.JsonCopy | src/core/RecursionTracer.js:18 | `JSON.parse(JSON.stringify(v))` keeps the kind of value and the length of arrays; undefined stays undefined. |
| Values.CopyFields | src/core/RecursionTracer.js:18 | Copying an object drops exactly the fields whose value is undefined. |
| Values.JsonCopyIsPlain | src/core/TraceEvent.js:14 | A JSON copy holds no undefined inside arrays or objects. |
| Values.JsonCopyOfPlain | src/core/TraceEvent.js:14 | A value without undefined inside is its own JSON copy. |
| Values.JsonCopyIdempotent | src/core/TraceEvent.js:14 | Copying twice is copying once. |
| Values.NatToStringInjective | src/core/RecursionTracer.js:13 | The decimal rendering of the counter is injective. |
| Values.IntArrayPlain | src/algos/Permutations.js:23 | An array of numbers, such as a permutation, survives the tracer's copy unchanged. |
| Values.BoolArrayPlain | src/algos/Permutations.js:41 | An array of booleans, such as `visited`, survives the tracer's copy unchanged. |
| Replay.LatestMatch | main.js:159-164 | The backwards search finds the newest stacked event with the frame id, and reports none exactly when none has it. |
| Replay.Step2D | main.js:153-165 | A CALL is pushed; a RETURN removes at most one entry (none if no entry has its id); other events change nothing; nothing new appears but the event. |
| Replay.Replay2DHoldsCalls | main.js:146-166 | The reconstructed 2D stack holds only CALL events of the scanned prefix. |
| Replay.Replay2DAgrees | main.js:146-166 | On a nested timeline the 2D stack's ids are exactly the open (called, not returned) frame ids, in call order. |
| Replay.RemoveAt | main.js:161 | `splice(j, 1)` keeps the entries before `j` and shifts the rest down by one. |
| Replay.StepScript | script.js:100-131 | A CALL adds a frame and its id; a RETURN of a known frame removes it; a VAR updates a known frame's locals; anything else for an unknown frame changes nothing. |
| Replay.ReplayScriptAgrees | script.js:91-159 | On a nested timeline the stack order is exactly the open ids and the frame map holds exactly those ids. |
| Replay.StepTree | src/vis/TreeVisualizer.js:276-289 | Sets only grow, except `active`; a RETURN's id ends up returned and not active. |
| Replay.ReplayTreeSets | src/vis/TreeVisualizer.js:276-289 | Active ids are among the created ones; created = all CALL ids, returned = all RETURN ids of the prefix. |
| Replay.ReplayTreeAgrees | src/vis/TreeVisualizer.js:276-289 | On a nested timeline with unique CALL ids, active = open ids = created − returned. |
| Replay.FirstMatch | src/vis3d/StackVisualizer3D.js:25-26 | `findIndex` finds the earliest event with the id, and reports none exactly when none has it. |
| Replay.Step3D | src/vis3d/StackVisualizer3D.js:16-28 | A RETURN removes at most one kept event (none if no kept event has its id); non-CALL, non-RETURN events change nothing. |
| Replay.Replay3DAgrees | src/vis3d/StackVisualizer3D.js:16-28 | On a nested timeline the kept events' ids are the open ids and the active id set is exactly those ids. |
| Replay.NestedDistinct | src/vis3d/StackVisualizer3D.js:16-28 | On a nested timeline no frame id is open twice. |
| Replay.NestedPrefix | main.js:108-143 | Every prefix of a nested timeline, that is every step a view can show, is nested. |
| Agreement.RunRecorded | src/core/RecursionTracer.js:12-43 | Every timeline a fresh tracer records is nested, carries unique CALL ids, and its open ids are the tracer's stack. |
| Agreement.RecordedTimelinesDrawable | src/core/RecursionTracer.js:12-30 | Every timeline a fresh tracer records meets what the tree's `reset` needs: each CALL event carries its frame, and no frame names itself as its parent. |
| Agreement.PrefixOfRun | main.js:108-143 | Every prefix of a recorded timeline is the whole timeline of an earlier moment of the same run. |
| Agreement.ReplaysAgreeWithTracer | main.js:146-166 | At every step all four views (2D splice, script.js frame map, tree sets, 3D kept events) show exactly the stack the tracer had at that moment. |
| MainView.Render2DStack | main.js:146-166 | The reconstruction loop computes the `Replay2D` fold of the timeline up to and including step `index`. |
| MainView.SpliceReturn | main.js:156-165 | The RETURN branch removes the newest stacked entry with the returning frame's id, or nothing. |
| MainView.UpdateVisuals | main.js:108-122 | Nothing is drawn exactly when the index is outside [0, length); otherwise the 2D stack for that step is shown. |
| MainView.Player.constructor | main.js:13-15 | On page load there is no timeline, step 0 is shown and nothing plays. |
| MainView.Player.Load | main.js:368-369 | A run shows its new timeline from step 0 and leaves the play flag as it was. |
| MainView.Player.Next | main.js:53-59 | "Next" moves one step forward unless at the last step, and keeps the index in range. |
| MainView.Player.Prev | main.js:61-67 | "Previous" moves one step back unless at step 0, and keeps the index in range. |
| MainView.Player.TogglePlay | main.js:81-91 | Play/pause stops a running loop; otherwise it starts playing with one immediate tick, stopping again at the last step. |
| MainView.Player.PlayLoop | main.js:93-105 | A tick does nothing when paused, steps forward and schedules the next tick, or stops at the last step. |
| ScriptView.RenderStack | script.js:91-159 | The reconstruction loop computes the `ReplayScript` fold of the timeline up to and including step `index`. |
| ScriptView.UpdateVisuals | script.js:68-87 | Nothing is drawn exactly when the index is outside [0, length); otherwise the stack for that step is shown. |
| ScriptView.Player.constructor | script.js:58 | After a run the timeline is shown from step 0. |
| ScriptView.Player.StepForward | script.js:185-192 | One step forward, or, at the last step, stay and pause; the index stays in range. |
| ScriptView.Player.StepBackward | script.js:194-199 | One step back unless at step 0; the index stays in range. |
| ScriptView.Player.JumpToStep | script.js:227-230 | The index becomes the requested step. |
| StackView3D.ScanActive | src/vis3d/StackVisualizer3D.js:16-28 | The scan computes the `Replay3D` fold of the timeline up to and including step `index`. |
| StackView3D.ScanEvent | src/vis3d/StackVisualizer3D.js:17-27 | One event changes the scan's two variables as `Step3D` says. |
| StackView3D.FindIndex | src/vis3d/StackVisualizer3D.js:25-26 | `findIndex` returns −1 exactly when no event has the id, otherwise the earliest matching position. |
| StackView3D.FirstMatchAt | src/vis3d/StackVisualizer3D.js:25-26 | A position whose id occurs nowhere before it is what `findIndex` returns. |
| StackView3D.UpdateCoversActive | src/vis3d/StackVisualizer3D.js:10-57 | On a nested timeline, after creating and pruning, the meshes shown are exactly the active frames. |
| StackView3D.StackVisualizer3D.constructor | src/vis3d/StackVisualizer3D.js:4-8 | A new visualizer shows no meshes. |
| StackView3D.StackVisualizer3D.Update | src/vis3d/StackVisualizer3D.js:10-57 | After `update`, a mesh is shown exactly for each active frame of the step; meshes kept from before are the same objects. |
| StackView3D.StackVisualizer3D.CreateMissing | src/vis3d/StackVisualizer3D.js:32-36 | Each kept event gets a mesh if its id has none; existing meshes are untouched. |
| StackView3D.StackVisualizer3D.Prune | src/vis3d/StackVisualizer3D.js:50-56 | Exactly the meshes of inactive ids are removed; the others are unchanged. |
| StackView3D.StackVisualizer3D.Reset | src/vis3d/StackVisualizer3D.js:122-125 | Every mesh is removed. |
| TreeView.BuildStep | src/vis/TreeVisualizer.js:67-91 | A CALL adds one node for its frame, indexed by its id, linked under its parent or made the root; other events change nothing. |
| TreeView.BuildOneNodePerCall | src/vis/TreeVisualizer.js:64-94 | The tree holds one node per CALL event, each carrying that CALL's frame, in order. |
| TreeView.BuildIndexesEveryId | src/vis/TreeVisualizer.js:64-94 | Every called frame's id is a key of the node index. |
| TreeView.BuildForward | src/vis/TreeVisualizer.js:86-91 | With no frame its own parent, every child link points to a later node, so the layout recursion terminates. |
| TreeView.BuildUniqueParents | src/vis/TreeVisualizer.js:86-91 | With no frame its own parent, no node is listed as a child twice, under one parent or under two, so the built structure is a forest. |
| TreeView.WidthAtLeastNode | src/vis/TreeVisualizer.js:104-113 | Every subtree is at least one node wide. |
| TreeView.ChildWidthsAtLeast | src/vis/TreeVisualizer.js:104-113 | The first i children together take at least i × (node size + gap). |
| TreeView.LeafXsSpaced | src/vis/TreeVisualizer.js:127-138 | The leaf positions `LeafXs` of a subtree, one per leaf, run from the current position in steps of node size plus gap (tied to the nodes by `XsAtLeaves` and `DrawnLeaves`). |
| TreeView.XWithinLeaves | src/vis/TreeVisualizer.js:127-138 | A leaf sits at the current position, and a parent lies between its first and last leaf. |
| TreeView.Sub | src/vis/TreeVisualizer.js:104-111 | The nodes `calculateLayout` and `positionLeaves` reach from node `k`: `k` itself and only later nodes. |
| TreeView.Levels | src/vis/TreeVisualizer.js:97-111 | The depth `calculateLayout` gives each reached node, keyed by exactly the subtree, with `k` at the starting depth; a node reached twice keeps the later write. |
| TreeView.Xs | src/vis/TreeVisualizer.js:127-138 | The x `positionLeaves` gives each reached node, keyed by exactly the subtree, with `k` at `XOf`; a node reached twice keeps the later write. |
| TreeView.LeafIds | src/vis/TreeVisualizer.js:127-138 | The leaves of the subtree in the order `positionLeaves` visits them, one per leaf counted by `Leaves`, each in the subtree and childless. |
| TreeView.SiblingsDisjoint | src/vis/TreeVisualizer.js:104-111 | In a forest, the subtrees of two different children of a node share no node. |
| TreeView.LevelsChild | src/vis/TreeVisualizer.js:104-111 | Within the subtree, every child's depth is its parent's depth plus one. |
| TreeView.XsMidpoint | src/vis/TreeVisualizer.js:133-137 | In a forest, every parent in the subtree gets the midpoint of its first and last child's x. |
| TreeView.XsAtLeaves | src/vis/TreeVisualizer.js:127-138 | In a forest, the j-th leaf in depth-first order gets x = start + 50 × j, which is `LeafXs`. |
| TreeView.XsUpToEnds | src/vis/TreeVisualizer.js:131-137 | After the first `i` children, the first and the latest child hold their own `XOf`. |
| TreeView.DrawnLevels | src/vis/TreeVisualizer.js:97-111 | After layout from depth 0, the root is at y = 40 and every child of the tree 80 below its parent. |
| TreeView.DrawnMidpoints | src/vis/TreeVisualizer.js:133-137 | After layout, every parent of the tree is drawn above the midpoint of its first and last child. |
| TreeView.DrawnLeaves | src/vis/TreeVisualizer.js:118-138 | After layout from x = 40, the leaves in depth-first order are drawn at 40, 90, 140, … |
| TreeView.DrawnShape | src/vis/TreeVisualizer.js:46-62 | A laid-out forest keeps its links and has the whole shape `Drawing` describes. |
| TreeView.UpdateSets | src/vis/TreeVisualizer.js:276-289 | The scan computes the `ReplayTree` sets of the timeline up to and including step `index`. |
| TreeView.NodeLook | src/vis/TreeVisualizer.js:292-332 | A node is styled active exactly when active, returned exactly when returned and not active, and not reached exactly when never created. |
| TreeView.NodeLookOnNested | src/vis/TreeVisualizer.js:292-332 | On a recorded timeline no node is left in the created-only branch; active means open, not reached means never called. |
| TreeView.RecursionTreeVisualizer.constructor | src/vis/TreeVisualizer.js:1-10 | A new visualizer holds no nodes, an empty index and no root. |
| TreeView.RecursionTreeVisualizer.BuildTreeStructure | src/vis/TreeVisualizer.js:64-94 | The node list, index and root become the `Build` of the timeline. |
| TreeView.RecursionTreeVisualizer.Update | src/vis/TreeVisualizer.js:271-333 | Each indexed node gets the style `NodeLook` gives its id at the step on show. |
| TreeView.RecursionTreeVisualizer.CalculateLayout | src/vis/TreeVisualizer.js:97-114 | Every node of the subtree gets y = its `Levels` depth × 80 + 40 and the `Width` of its own subtree; every other node and field is unchanged. |
| TreeView.RecursionTreeVisualizer.LayoutChildren | src/vis/TreeVisualizer.js:104-111 | The children's subtrees are laid out one level down, and the total is the children's widths plus one gap each. |
| TreeView.RecursionTreeVisualizer.PositionLeaves | src/vis/TreeVisualizer.js:127-138 | Every node of the subtree gets its `Xs` position, and the next free position advances one leaf step per leaf; nothing else changes. |
| TreeView.RecursionTreeVisualizer.PositionChildren | src/vis/TreeVisualizer.js:131-137 | Each child's subtree is placed from where the previous one ended (`XsUpTo`), and the next free position is past all their leaves; nothing else changes. |
| TreeView.RecursionTreeVisualizer.CenterTree | src/vis/TreeVisualizer.js:118-141 | Without a root nothing changes; otherwise every node of the tree gets its `Xs` position from x = 40. |
| TreeView.RecursionTreeVisualizer.Reset | src/vis/TreeVisualizer.js:46-62 | The tree is rebuilt from the timeline as a forest, every node of the root's tree is laid out (`Drawn`), and the drawing has the `Drawing` shape. |
| Transpiler.MatchLiteral | src/core/CppTranspiler.js:73-75 | A literal replacement matches exactly where the text starts with the (non-empty) pattern. |
| Transpiler.MatchInclude | src/core/CppTranspiler.js:24 | A match happens exactly when the text starts with `#include`, at least one space, `<` and a `>` later on the same line; it runs to the first such `>` and is removed. |
| Transpiler.MatchUsing | src/core/CppTranspiler.js:25 | A match happens exactly when the text starts with `using`, at least one space, `namespace`, at least one space and `std;`; that whole run is removed. |
| Transpiler.CoutOpening | src/core/CppTranspiler.js:29 | The message of a `cout` statement starts after `cout`, `<<` and the spaces around it, never on a space. |
| Transpiler.CoutText | src/core/CppTranspiler.js:29 | The captured text runs from the opening to the first `;` on the same line and holds neither `;` nor a line break. |
| Transpiler.MatchCout | src/core/CppTranspiler.js:29-34 | A `cout << ...;` statement, up to and including its first `;`, becomes exactly `tracer.log(<LogMessage of its text>, 0);`. |
| Transpiler.EndlMessage | src/core/CppTranspiler.js:30-32 | A bare `endl` message (from `cout << endl;`) is logged as the word `endl`: only an `endl` preceded by `<<` inside the text is removed. |
| Transpiler.MatchEndl | src/core/CppTranspiler.js:30 | A match happens exactly when the text starts with `<<`, any spaces and `endl`; the match is those characters and is removed. |
| Transpiler.ReturnValue | src/core/CppTranspiler.js:60-64 | The reported value is the trimmed expression, or `undefined` for a bare `return;`. |
| Transpiler.ReturnArg | src/core/CppTranspiler.js:60 | The group `(.*?)` after `return` and its spaces: there is one exactly when a `;` follows on the same line, and it is the text up to the first such `;`. |
| Transpiler.MatchReturn | src/core/CppTranspiler.js:60-64 | A match happens exactly when `ReturnArg` captures an expression; it covers `return`, the spaces, the expression and its `;`, and becomes `tracer.return(v, 0); return v;` with `v` the `ReturnValue` of that expression. |
| Transpiler.MatchVectorType | src/core/CppTranspiler.js:69 | A match happens exactly when the text starts with `vector`, any spaces, `<` and a `>` later on the same line; it ends at the first such `>` and becomes `let`. |
| Transpiler.MatchTypeWord | src/core/CppTranspiler.js:70 | A type word becomes `let` exactly where it stands as a whole word. |
| Transpiler.HeaderAt | src/core/CppTranspiler.js:39 | A header match has a non-empty function name and lies within the text. |
| Transpiler.LastWord | src/core/CppTranspiler.js:48-49 | The name is the suffix after the last space or `&`, and holds neither. |
| Transpiler.MapArgName | src/core/CppTranspiler.js:43-49 | Each comma-separated piece is mapped to its name, blanks included. |
| Transpiler.DropBlankKept | src/core/CppTranspiler.js:50 | The filter keeps exactly the non-empty names. |
| Transpiler.DropBlankNone | src/core/CppTranspiler.js:50 | With no blank name the filter keeps the whole list. |
| Transpiler.ArgNamesAreNames | src/core/CppTranspiler.js:43-50 | Every kept parameter is non-empty and holds no space and no `&`. |
| Transpiler.CleanArgsOneLine | src/core/CppTranspiler.js:43-50 | The cleaned parameter list holds no newline. |
| Transpiler.CleanArgsOfTwo | src/core/CppTranspiler.js:43-50 | Two named arguments come out as their names joined by ", ". |
| Transpiler.ExampleCleanArgs | src/core/CppTranspiler.js:43-50 | `vector<int> nums, int i` becomes `nums, i`. |
| Transpiler.CleanArgsEmpty | src/core/CppTranspiler.js:43-50 | A header without arguments gets an empty parameter list. |
| Transpiler.ExampleFirstName | src/core/CppTranspiler.js:44-49 | `vector<int> nums` gives the name `nums`. |
| Transpiler.ExampleSecondName | src/core/CppTranspiler.js:44-49 | ` int i` gives the name `i`: it is trimmed first. |
| Transpiler.MatchHeader | src/core/CppTranspiler.js:39-57 | A header is matched exactly where `HeaderAt` parses one, and the whole header is replaced. |
| Transpiler.MatchHeaderLines | src/core/CppTranspiler.js:41-56 | The replacement is the four generated lines built from the function name and the cleaned parameters. |
| Transpiler.HeaderText | src/core/CppTranspiler.js:53-56 | The generated header splits into exactly its four lines. |
| Transpiler.HeaderLines | src/core/CppTranspiler.js:53-56 | The generated header is four lines, none holding a newline. |
| Transpiler.MatchAt | src/core/CppTranspiler.js:20-75 | Every rule's match covers at least one character, within the text. |
| Transpiler.Rewrite | src/core/CppTranspiler.js:24-75 | The global replace; removing `<< endl` never lengthens the text. |
| Transpiler.RewriteKeepsUnmatched | src/core/CppTranspiler.js:24-75 | Where the pattern matches at no position, the global replace returns the text unchanged. |
| Transpiler.InstrumentLine | src/core/CppTranspiler.js:80-87 | A skipped line is kept; any other gets the marker for its line number prepended. |
| Transpiler.StepLinesAligned | src/core/CppTranspiler.js:78-90 | The line pass keeps the number of lines, and line i of the output is line i of the input instrumented with number i + 1. |
| Transpiler.StepLinesIdentity | src/core/CppTranspiler.js:78-90 | With nothing to instrument the line pass changes nothing. |
| Transpiler.LiteralKeepsOut | src/core/CppTranspiler.js:73-75 | A safe literal rewrite never creates an occurrence of a pattern, and removes every occurrence of its own pattern. |
| Transpiler.SafeReplacements | src/core/CppTranspiler.js:32 | The three method replacements and the `<<`→`+` replacement are safe for the patterns they must not recreate. |
| Transpiler.MethodsPassRemoves | src/core/CppTranspiler.js:73-75 | After the vector-method pass no `.push_back(`, `.pop_back(` or `.size()` is left. |
| Transpiler.ReplacePasses | src/core/CppTranspiler.js:21-75 | After the ten replacements no `.push_back(`, `.pop_back(` or `.size()` is left in the text. |
| Transpiler.Transpile | src/core/CppTranspiler.js:20-93 | The output has one line per line of the replaced text, and line i is that line as `InstrumentLine` numbers it i + 1. |
| Transpiler.IncludeIsRegexMatch | src/core/CppTranspiler.js:24 | The match is a prefix matching `#include\s+<.*?>`, and the shortest: whenever some prefix matches, the matcher finds one no longer. |
| Transpiler.UsingIsRegexMatch | src/core/CppTranspiler.js:25 | The match is a prefix matching `using\s+namespace\s+std;`, and any prefix that matches is exactly the one found. |
| Transpiler.EndlIsRegexMatch | src/core/CppTranspiler.js:30 | The match is a prefix matching `<<\s*endl`, and any prefix that matches is exactly the one found. |
| Transpiler.ReturnIsRegexMatch | src/core/CppTranspiler.js:60 | The match is a prefix matching `return\s*(.*?);`, and the shortest: whenever some prefix matches, the matcher finds one no longer. |
| Transpiler.VectorIsRegexMatch | src/core/CppTranspiler.js:69 | The match is a prefix matching `vector\s*<.*?>`, and the shortest: whenever some prefix matches, the matcher finds one no longer. |
| Transpiler.LiteralCut | src/core/CppTranspiler.js:32 | Cutting a text at each occurrence a left-to-right scan meets gives pieces without the pattern; joined by the pattern they give the text back, joined by the replacement they give the global replace. |
| Transpiler.EndlRemoved | src/core/CppTranspiler.js:30 | The `endl` pass cuts the text into kept pieces and removed `<<\s*endl` runs; woven back together they give the text, the pass's result is the kept pieces alone, and no kept piece holds a match. |
| Transpiler.EndlCutIsPass | src/core/CppTranspiler.js:30 | The `endl` pass's result, from any previous character, is the kept pieces of the cut concatenated. |
| Transpiler.EndlCutShape | src/core/CppTranspiler.js:30 | The cut gives the text back, every removed part is a whole `<<\s*endl` run, and no kept piece holds a match. |
| Transpiler.EndlCutSkip | src/core/CppTranspiler.js:30 | Where no match starts at any position of a prefix, the whole prefix is kept, joined to the first kept piece of the rest. |
| Transpiler.EndlCutExample | src/core/CppTranspiler.js:30 | `a << b << endl` is cut into the kept `a << b ` and the removed `<< endl`. |
| Transpiler.LogMessageExample | src/core/CppTranspiler.js:29-34 | `cout << a << b << endl;` logs `a + b`. |
| Transpiler.EndlPassExample | src/core/CppTranspiler.js:30 | The `endl` pass turns `a << b << endl` into `a << b `. |
| Transpiler.ShiftPassExample | src/core/CppTranspiler.js:32 | The `<<` pass turns `a << b` into `a + b`. |
| Transpiler.ReturnExample | src/core/CppTranspiler.js:60-64 | `return x;` becomes `tracer.return(x, 0); return x;`. |
| Transpiler.BareReturnExample | src/core/CppTranspiler.js:60-64 | `return;` becomes `tracer.return(undefined, 0); return undefined;`. |
| Transpiler.LogMessageHasNoShift | src/core/CppTranspiler.js:30-32 | The trimmed text left by the `endl` pass cuts at each `<<` into pieces free of `<<`; the logged message is those pieces joined by `+`, so no `<<` is left. |
| Text.JoinSplitOn | src/core/CppTranspiler.js:78-90 | Joining the split lines gives the text back. |
| Text.SplitJoinOn | src/core/CppTranspiler.js:78-90 | Splitting lines without the separator after joining them gives the lines back. |
| Text.Trim | src/core/CppTranspiler.js:45 | `trim()` gives a substring with no blank at either end, empty exactly when the text is all blanks. |
| Driver.KindOf | main.js:296-333 | Exactly `array`, `number`, `string` and `multi-number` are recognised. |
| Driver.FirstParam | main.js:317-318 | The first parameter's name when there is one. |
| Driver.PartOrZero | main.js:330 | The i-th trimmed input part, or `0` when it is empty or missing; never empty. |
| Driver.Parts | main.js:328 | One trimmed part per comma-separated piece of the input. |
| Driver.NumberLines | main.js:329-331 | One declaration per parameter, in order. |
| Driver.TerminatedThenLast | main.js:296-333 | Lines built with a trailing newline each, followed by the call, are the lines joined by newlines. |
| Driver.SynthesizeDriver | main.js:296-333 | The driver code built is `DriverCode` of the entry and the input. |
| Driver.SynthesizeArray | main.js:301-314 | The `array` branch builds the `DriverCode` lines. |
| Driver.SynthesizeScalar | main.js:316-324 | The `number` and `string` branches build the `DriverCode` lines. |
| Driver.SynthesizeMultiNumber | main.js:326-332 | The `multi-number` loop builds the `DriverCode` lines. |
| Driver.ScalarLines | main.js:316-324 | A scalar driver is the declaration `int p = v;` or `string p = "v";` and then the call. |
| Driver.NumberDriver | main.js:316-319 | A `number` algorithm gets `int p = v;` and then `root(p);`. |
| Driver.ArrayDriver | main.js:301-314 | An `array` driver declares the vector, then (if asked) its size, then calls the root with the extra arguments. |
| Driver.MultiNumberDriver | main.js:326-332 | A `multi-number` driver declares each parameter from its input part, then calls the root with all of them. |
| Driver.MultiNumberValuesTrimmed | main.js:328-330 | Every value a `multi-number` driver assigns is non-empty and trimmed. |
| Driver.UnknownInputNoDriver | main.js:296-333 | Any other input type gets no driver code at all. |
| Driver.DriverLinesSplit | main.js:296-333 | With newline-free inputs, the driver code splits back into exactly its lines. |
| Driver.Find | main.js:336 | The first occurrence of the pattern, or none exactly when it does not occur. |
| Driver.BeforeMarker | main.js:336-341 | The user's part is the text before the first `// Driver` marker, or the whole text when there is none. |
| Driver.UserPartHasNoMarker | main.js:336-341 | The user's part never contains the marker. |
| Driver.InjectedMarkerIsFirst | main.js:335-346 | In the injected program the marker that was added is the first one. |
| Driver.InjectAfterUserPart | main.js:335-346 | The program handed on is the user's part, a newline, the marker line and the driver. |
| Driver.FindAt | main.js:336 | An occurrence with none before it is what the search reports. |
| Driver.DriverReplaced | main.js:335-346 | Injecting into an injected program replaces the driver: the old driver makes no difference. |
| Factorial.Fact | src/algos/Factorial.js:10-33 | The value returned is at least 1. |
| Factorial.FactIsProduct | src/algos/Factorial.js:10-33 | For every n the procedure returns the product 1 × 2 × … × n (1 for n ≤ 1). |
| Factorial.Calls | src/algos/Factorial.js:10-33 | At least one activation. |
| Factorial.CloseState | src/algos/Factorial.js:25-31 | The close keeps the registry well formed. |
| Factorial.FactState | src/algos/Factorial.js:10-33 | The whole invocation keeps the registry well formed. |
| Factorial.FactorialAlgo.constructor | src/algos/Factorial.js:3 | The algorithm uses the tracer it is given. |
| Factorial.FactorialAlgo.Factorial | src/algos/Factorial.js:10-33 | `factorial(n)` returns n! and advances the tracer as `FactState` says. |
| Factorial.FactorialAlgo.Recurse | src/algos/Factorial.js:22-32 | The recursive branch returns n! after the inner invocation and the close. |
| Factorial.FactorialAlgo.Enter | src/algos/Factorial.js:12-14 | The CALL recording `{ n }`, returning the new frame's id. |
| Factorial.FactorialAlgo.BaseCase | src/algos/Factorial.js:16-20 | The base case records a RETURN of 1. |
| Factorial.FactorialAlgo.Close | src/algos/Factorial.js:25-31 | `result` is n × `subResult`; both are recorded, then the RETURN of the result. |
| Factorial.FactorialAlgo.Run | src/algos/Factorial.js:4-8 | `run(n)` resets and leaves `RunState(n)`, returning its timeline. |
| Factorial.ReturnValuesAppend | src/algos/Factorial.js:10-33 | The returned values of two event lists concatenate. |
| Factorial.FactValues | src/algos/Factorial.js:10-33 | One value per activation: 1!, 2!, …, n!, innermost first. |
| Factorial.ClosingEffect | src/algos/Factorial.js:25-31 | The close appends the VARs `subResult` and `result` with their values, then the RETURN of the result, and pops the frame. |
| Factorial.FactEffect | src/algos/Factorial.js:10-33 | `factorial(n)` leaves the stack as it was, uses `Calls(n)` ids, and appends as many CALL as RETURN events returning 1!, …, n!, opening and closing with its own frame, with `result` = n × `subResult`. |
| Factorial.RunTimeline | src/algos/Factorial.js:4-8 | `run(n)` records n CALLs and n RETURNs (one each for n ≤ 1) returning 1!, …, n!, starts with the CALL of `frame_0`, and leaves the stack empty. |
| Factorial.FactValuesThree | src/algos/Factorial.js:10-33 | The values for n = 3 are 1, 2, 6. |
| Factorial.RunThreeReturns | src/algos/Factorial.js:4-8 | For n = 3 the RETURN events carry 1, 2 and 6, in that order. |
| Permutations.Pick | src/algos/Permutations.js:39 | One element per chosen index. |
| Permutations.AllFalse | src/algos/Permutations.js:9 | `visited` starts as one clear flag per element. |
| Permutations.PermState | src/algos/Permutations.js:15-59 | The whole invocation keeps the registry well formed. |
| Permutations.PermStateStack | src/algos/Permutations.js:15-59 | An invocation leaves the stack as it found it. |
| Permutations.RunBalanced | src/algos/Permutations.js:4-13 | After `run(nums)` no frame is left on the stack. |
| Permutations.PermStateGrows | src/algos/Permutations.js:15-59 | An invocation keeps the tracer's invariant and only appends events. |
| Permutations.RunEvents | src/algos/Permutations.js:4-13 | The timeline opens with the input's LOG, attributed to no frame, and holds as many RETURN as CALL events. |
| Permutations.Leaves | src/algos/Permutations.js:15-59 | Every completed index sequence uses indices of `nums` only. |
| Permutations.LeavesArePermutations | src/algos/Permutations.js:20-55 | Every completed index sequence has length n, repeats no index, and extends the chosen indices. |
| Permutations.ChooseKeepsMarks | src/algos/Permutations.js:37-42 | Choosing an unvisited index keeps `visited` flagging exactly the chosen indices. |
| Permutations.PickSnoc | src/algos/Permutations.js:39 | Pushing `nums[i]` is choosing index i. |
| Permutations.PermsIntoLeaves | src/algos/Permutations.js:15-59 | What an invocation pushes onto `result` is its completed index sequences, picked from `nums`, in order. |
| Permutations.RunResults | src/algos/Permutations.js:4-13 | `result` holds one permutation per completed index sequence; the completed sequences are exactly the arrangements of all n indices, none twice. |
| Permutations.LeavesComplete | src/algos/Permutations.js:27-55 | Every arrangement of all n indices that extends the chosen ones is completed: the search misses none. |
| Permutations.LeavesFromAbove | src/algos/Permutations.js:28-54 | The loop from index i on only completes sequences whose next index is i or later. |
| Permutations.LeavesNoRepeats | src/algos/Permutations.js:27-55 | No index sequence is completed twice. |
| Permutations.RunFindsEvery | src/algos/Permutations.js:4-13 | Every arrangement of `nums` ends up in `result`. |
| Permutations.LeavesCount | src/algos/Permutations.js:15-59 | An invocation with m places left completes m! index sequences. |
| Permutations.RunCount | src/algos/Permutations.js:4-13 | `run(nums)` pushes exactly \|nums\|! permutations. |
| Permutations.RunState | src/algos/Permutations.js:4-13 | The session after `run` keeps the registry well formed. |
| Permutations.PermutationsAlgo.constructor | src/algos/Permutations.js:3 | A new algorithm has empty `nums`, `result`, `visited` and `currentPerm`. |
| Permutations.PermutationsAlgo.Permute | src/algos/Permutations.js:15-59 | `permute` advances the tracer as `PermState` says, pushes its permutations onto `result`, and restores `visited` and `currentPerm`. |
| Permutations.PermutationsAlgo.Enter | src/algos/Permutations.js:16-18 | The CALL recording `{ currentPerm, depth }`. |
| Permutations.PermutationsAlgo.Found | src/algos/Permutations.js:20-25 | The base case pushes a copy of the permutation and returns it. |
| Permutations.PermutationsAlgo.Leave | src/algos/Permutations.js:57-58 | After the loop the invocation returns null. |
| Permutations.PermutationsAlgo.Explore | src/algos/Permutations.js:27-55 | The loop advances the tracer as `LoopState` says and restores `visited` and `currentPerm`. |
| Permutations.PermutationsAlgo.Iterate | src/algos/Permutations.js:28-54 | One iteration skips a visited index and otherwise chooses, recurses and undoes. |
| Permutations.PermutationsAlgo.ChooseAndRecurse | src/algos/Permutations.js:37-54 | Choosing index i, recursing and undoing pushes the permutations extending the choice and restores the state. |
| Permutations.PermutationsAlgo.Choose | src/algos/Permutations.js:37-42 | `visited[i]` is set and `nums[i]` pushed onto `currentPerm`; both are recorded. |
| Permutations.PermutationsAlgo.Undo | src/algos/Permutations.js:49-54 | `visited` and `currentPerm` are back to what they were before the choice; both are recorded. |
| Permutations.PermutationsAlgo.Run | src/algos/Permutations.js:4-13 | `run(nums)` leaves `RunState(nums)` and returns its timeline; `result` holds \|nums\|! entries and every arrangement of `nums` among them. |
| Permutations.PermutationsAlgo.Start | src/algos/Permutations.js:5-9 | A reset, the start LOG, then `nums` set, `result` empty and all flags clear. |

## Left out

- Tracer.RecursionTracer.Step: the algorithms call `tracer.step`, but
  `RecursionTracer` does not define it. As written, `run` therefore throws a
  TypeError at the first `tracer.step(...)`, straight after the first CALL
  (src/algos/Factorial.js:14, src/algos/Permutations.js:18). The model
  describes the program with `step` taken as an operation that records
  nothing.
- Factorial.ClosedBy, Factorial.ClosingEffect, Factorial.FactEffect and
  Factorial.RunTimeline rest on `Step` recording nothing: the exact event
  positions they state (three new events when a frame closes, the `subResult`
  and `result` VAR events first and the RETURN last) would shift by one
  event for each `step` call if `step` recorded an event.
- TraceEvent's random `id` and `Date.now()` timestamp are not part of the
  model: nothing in the core reads them.
- JavaScript numbers are modelled as unbounded integers. The floating-point
  rounding of large factorials is not modelled.
- JSON copying drops `undefined` object fields and turns `undefined` array
  items into null. Functions, cycles and other non-JSON values are not
  modelled.
- Frames are stored as values in the tracer's registry, and the stack holds
  their ids. Aliasing between the stack, the registry and a CALL event's
  `frame` object is therefore not modelled. The event holds a deep copy
  anyway.
- `registerLine`'s truthiness test on the frame id is modelled as a null
  test: frame ids are never empty.
- DOM, SVG, THREE.js and canvas rendering are not modelled. This covers the
  zoom, `highlightLine`, the `SceneManager`, and the slider and button text.
  `createFrame`/`createTexture` produce a mesh token (`MeshFor`); z positions
  and animation are not modelled.
- StackView3D.StackVisualizer3D.Update covers only the set of meshes shown,
  not where each mesh is placed.
- `runSimulation` in `main.js` evaluates the transpiled code with `eval`, and
  uses `setTimeout`. Neither is modelled. The program it hands on is
  `InjectDriver`'s result.
- The registry entry (`AlgorithmRegistry`) is a parameter (`Driver.Algo`). Its
  contents are not modelled.
- The slider handlers (`main.js:41-44`, `script.js:29-31`) are not modelled:
  they set the index and redraw, as `JumpToStep` does.
- `script.js`'s `togglePlay`/`play`/`pause` and their `setInterval` are not
  modelled: timers are outside the model. The pause at the end is in
  `StepForward`.
- `script.js`'s parsing of its input with `parseInt`/`Number` is not modelled.
- `renderStaticTree` and the tree's SVG drawing are not modelled.
- TreeView.RecursionTreeVisualizer.Reset requires that no CALL frame names
  itself as its parent; the source would recurse without end on such a
  timeline. `Agreement.RecordedTimelinesDrawable` proves that the tracer
  never records one.
- TreeView.RecursionTreeVisualizer.CalculateLayout requires child links that
  point to later nodes, for the same reason.
- TreeView.RecursionTreeVisualizer.LayoutChildren has the same requirement,
  for the same reason.
- TreeView.RecursionTreeVisualizer.CenterTree has the same requirement, for
  the same reason.
- TreeView.RecursionTreeVisualizer.PositionLeaves has the same requirement,
  for the same reason.
- TreeView.RecursionTreeVisualizer.PositionChildren has the same requirement,
  for the same reason.
- TreeView.XsMidpoint, TreeView.XsAtLeaves and the `Drawing` shape are proved
  for a forest (`UniqueParents`), which `Reset` establishes from the timeline.
  On a structure with shared children the layout methods still write what
  `Levels` and `Xs` say, the later write winning, but the shape is not claimed.
- MainView.UpdateVisuals returns only the 2D stack. The tree and 3D updates
  it also triggers are their own members (`TreeView`, `StackView3D`).
- The transpiler's regular expressions are modelled pattern by pattern as
  greedy/lazy scanners. There is no general regular-expression engine.
- Transpiler.HeaderAt states where a match lies and that its name is
  non-empty, not the whole grammar it accepts.
- The `split('// Driver')` injection is modelled by the first occurrence of
  the marker only; that is the only part the source keeps.
