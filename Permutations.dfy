/**
 * The hand-instrumented backtracking search of src/algos/Permutations.js:
 * `permute` extends `currentPerm` with every element whose `visited` flag is
 * clear, recurses, and undoes the choice, reporting each activation, each
 * choice and each undo to the tracer; complete permutations are collected in
 * `result`.
 *
 * The spec functions work on the indices chosen so far (`chosen`), from which
 * `currentPerm` is `Pick(nums, chosen)`. `PermState` is the tracer session
 * one invocation leaves behind and `Leaves` the index sequences it
 * completes; the methods are proved against both.
 */
module Permutations {
  import opened Wrappers
  import opened Values
  import opened Frames
  import opened Events
  import opened TracerSpec
  import opened Tracer
  import Agreement
  import Factorial

  // --- Index sequences ---

  /** Every index is below `n`. */
  ghost predicate InRange(idx: seq<nat>, n: nat)
  {
    forall k :: 0 <= k < |idx| ==> idx[k] < n
  }

  ghost predicate Distinct(idx: seq<nat>)
  {
    forall a, b :: 0 <= a < b < |idx| ==> idx[a] != idx[b]
  }

  /** The elements of `nums` at the given indices, in order. */
  function Pick(nums: seq<int>, idx: seq<nat>): (r: seq<int>)
    requires InRange(idx, |nums|)
    ensures |r| == |idx|
  {
    if |idx| == 0 then [] else Pick(nums, idx[..|idx| - 1]) + [nums[idx[|idx| - 1]]]
  }

  /** `visited` flags exactly the chosen indices, and no index is chosen twice. */
  ghost predicate Marks(visited: seq<bool>, chosen: seq<nat>)
  {
    InRange(chosen, |visited|) && Distinct(chosen) &&
    forall j :: 0 <= j < |visited| ==> (visited[j] <==> j in chosen)
  }

  function AllFalse(n: nat): (v: seq<bool>)
    ensures |v| == n && forall j :: 0 <= j < n ==> !v[j]
  {
    if n == 0 then [] else AllFalse(n - 1) + [false]
  }

  // --- The messages of the `step` calls ---

  /** The elements joined with `", "`, as `Array.prototype.join(', ')` renders integers. */
  function JoinNums(xs: seq<int>): string
  {
    if |xs| == 0 then "" else if |xs| == 1 then IntToString(xs[0])
    else IntToString(xs[0]) + ", " + JoinNums(xs[1..])
  }

  function CheckBaseText(len: int, target: int): string
  {
    "Checking base case: Is current length (" + IntToString(len) + ") == target (" + IntToString(target) + ")?"
  }

  function FoundText(cur: seq<int>): string
  {
    "Base case reached! Found permutation: [" + JoinNums(cur) + "]"
  }

  function LoopText(i: int, x: int): string
  {
    "Loop index i=" + IntToString(i) + ", Element=" + IntToString(x)
  }

  function VisitedText(i: int): string
  {
    "Checking if visited[" + IntToString(i) + "] is true..."
  }

  function SkipText(x: int): string
  {
    "Skipping " + IntToString(x) + " (Already visited)"
  }

  function ChooseText(x: int): string
  {
    "Choosing " + IntToString(x)
  }

  const RecurseText: string := "Recursing with new state..."

  function BacktrackText(x: int): string
  {
    "Backtracking: Undoing choice of " + IntToString(x)
  }

  const LoopDoneText: string := "Loop finished. Returning to caller."

  /** The log line `run` writes first: the input as JSON. */
  function StartMessage(nums: seq<int>): Value
  {
    Str("Starting Permutations with input: " + IntsToJson(nums))
  }

  // --- The tracer session after one invocation ---

  /** The CALL that opens an invocation, recording `{ currentPerm, depth }`. */
  function PermCall(cur: seq<int>, depth: int): Op
  {
    CallOp("permute", map["currentPerm" := IntArray(cur), "depth" := Num(depth)], Some(1))
  }

  /*
   * The four functions below give the session an invocation leaves behind,
   * from the session it starts in. The `step` reports are left out: the
   * tracer has no such method, and they change nothing.
   */

  /** The session after `permute(currentPerm, depth)`, the inner invocations included. */
  function PermState(s: TracerState, nums: seq<int>, visited: seq<bool>, chosen: seq<nat>, depth: int): (r: TracerState)
    requires WellFormed(s)
    requires |visited| == |nums| && |chosen| <= |nums| && InRange(chosen, |nums|)
    ensures WellFormed(r)
    decreases |nums| - |chosen|, 3, 0
  {
    var cur := Pick(nums, chosen);
    var called := Apply(s, PermCall(cur, depth));
    if |cur| == |nums| then Apply(called, ReturnOp(IntArray(cur), Some(3)))
    else Apply(LoopState(called, nums, visited, chosen, depth, 0), ReturnOp(Null, Some(18)))
  }

  /** The session after the iterations `i`, `i + 1`, ... of the loop. */
  function LoopState(s: TracerState, nums: seq<int>, visited: seq<bool>, chosen: seq<nat>, depth: int, i: nat): (r: TracerState)
    requires WellFormed(s)
    requires |visited| == |nums| && |chosen| < |nums| && InRange(chosen, |nums|) && i <= |nums|
    ensures WellFormed(r)
    decreases |nums| - |chosen|, 2, |nums| - i
  {
    if i == |nums| then s
    else LoopState(IterState(s, nums, visited, chosen, depth, i), nums, visited, chosen, depth, i + 1)
  }

  /** The session after iteration `i`: unchanged for a visited index. */
  function IterState(s: TracerState, nums: seq<int>, visited: seq<bool>, chosen: seq<nat>, depth: int, i: nat): (r: TracerState)
    requires WellFormed(s)
    requires |visited| == |nums| && |chosen| < |nums| && InRange(chosen, |nums|) && i < |nums|
    ensures WellFormed(r)
    decreases |nums| - |chosen|, 1, 0
  {
    if visited[i] then s else ChooseState(s, nums, visited, chosen, depth, i)
  }

  /**
   * The session after choosing index `i`: the copies of `visited` and of the
   * extended `currentPerm` recorded, the inner invocation, and the copies
   * recorded again once the choice is undone.
   */
  function ChooseState(s: TracerState, nums: seq<int>, visited: seq<bool>, chosen: seq<nat>, depth: int, i: nat): (r: TracerState)
    requires WellFormed(s)
    requires |visited| == |nums| && |chosen| < |nums| && InRange(chosen, |nums|) && i < |nums|
    ensures WellFormed(r)
    decreases |nums| - |chosen|, 0, 0
  {
    var chose := ChoiceState(s, nums, visited, chosen, i);
    var inner := PermState(chose, nums, visited[i := true], chosen + [i], depth + 1);
    UndoState(inner, nums, visited, chosen, i)
  }

  /** The two VAR records of a choice: `visited` with `i` set, and `currentPerm` extended by `nums[i]`. */
  function ChoiceState(s: TracerState, nums: seq<int>, visited: seq<bool>, chosen: seq<nat>, i: nat): (r: TracerState)
    requires WellFormed(s)
    requires |visited| == |nums| && InRange(chosen, |nums|) && i < |nums|
    ensures WellFormed(r)
  {
    var marked := Apply(s, SetOp("visited", BoolArray(visited[i := true]), Some(10)));
    Apply(marked, SetOp("currentPerm", IntArray(Pick(nums, chosen + [i])), Some(11)))
  }

  /** The two VAR records of an undo: `visited` and `currentPerm` as they were before the choice. */
  function UndoState(s: TracerState, nums: seq<int>, visited: seq<bool>, chosen: seq<nat>, i: nat): (r: TracerState)
    requires WellFormed(s)
    requires |visited| == |nums| && InRange(chosen, |nums|) && i < |nums|
    ensures WellFormed(r)
  {
    var cleared := Apply(s, SetOp("visited", BoolArray(visited), Some(15)));
    Apply(cleared, SetOp("currentPerm", IntArray(Pick(nums, chosen)), Some(16)))
  }

  /*
   * Every invocation hands the call stack back as it found it: its CALL
   * pushes one frame, its RETURN pops that frame, and everything between
   * leaves the stack as it was.
   */

  lemma {:induction false} PermStateStack(s: TracerState, nums: seq<int>, visited: seq<bool>, chosen: seq<nat>, depth: int)
    requires WellFormed(s)
    requires |visited| == |nums| && |chosen| <= |nums| && InRange(chosen, |nums|)
    ensures PermState(s, nums, visited, chosen, depth).stack == s.stack
    decreases |nums| - |chosen|, 3, 0
  {
    var cur := Pick(nums, chosen);
    var called := Apply(s, PermCall(cur, depth));
    assert called.stack == s.stack + [FrameId(s.frameCount)];
    assert called.stack[..|s.stack|] == s.stack;
    if |cur| < |nums| {
      LoopStateStack(called, nums, visited, chosen, depth, 0);
    }
  }

  lemma {:induction false} LoopStateStack(s: TracerState, nums: seq<int>, visited: seq<bool>, chosen: seq<nat>, depth: int, i: nat)
    requires WellFormed(s)
    requires |visited| == |nums| && |chosen| < |nums| && InRange(chosen, |nums|) && i <= |nums|
    ensures LoopState(s, nums, visited, chosen, depth, i).stack == s.stack
    decreases |nums| - |chosen|, 2, |nums| - i
  {
    if i < |nums| {
      IterStateStack(s, nums, visited, chosen, depth, i);
      LoopStateStack(IterState(s, nums, visited, chosen, depth, i), nums, visited, chosen, depth, i + 1);
    }
  }

  lemma {:induction false} IterStateStack(s: TracerState, nums: seq<int>, visited: seq<bool>, chosen: seq<nat>, depth: int, i: nat)
    requires WellFormed(s)
    requires |visited| == |nums| && |chosen| < |nums| && InRange(chosen, |nums|) && i < |nums|
    ensures IterState(s, nums, visited, chosen, depth, i).stack == s.stack
    decreases |nums| - |chosen|, 1, 0
  {
    if !visited[i] {
      var chose := ChoiceState(s, nums, visited, chosen, i);
      SetsKeepStack(s, nums, visited, chosen, i);
      PickSnoc(nums, chosen, i);
      var inner := PermState(chose, nums, visited[i := true], chosen + [i], depth + 1);
      PermStateStack(chose, nums, visited[i := true], chosen + [i], depth + 1);
      SetsKeepStack(inner, nums, visited, chosen, i);
    }
  }

  /** The VAR records of a choice and of an undo leave the stack alone. */
  lemma SetsKeepStack(s: TracerState, nums: seq<int>, visited: seq<bool>, chosen: seq<nat>, i: nat)
    requires WellFormed(s)
    requires |visited| == |nums| && InRange(chosen, |nums|) && i < |nums|
    ensures ChoiceState(s, nums, visited, chosen, i).stack == s.stack
    ensures UndoState(s, nums, visited, chosen, i).stack == s.stack
  {
  }

  /** After `run(nums)` no frame is left on the stack. */
  lemma RunBalanced(nums: seq<int>)
    ensures RunState(nums).stack == []
  {
    var start := Apply(Init, LogOp(StartMessage(nums), None));
    assert start.stack == [];
    assert Marks(AllFalse(|nums|), []);
    PermStateStack(start, nums, AllFalse(|nums|), [], 0);
  }

  /*
   * Every invocation keeps the session invariant and only appends events:
   * none of its operations is a reset.
   */

  /** `r` holds the events of `s` as a prefix. */
  ghost predicate Extends(s: TracerState, r: TracerState)
  {
    |s.events| <= |r.events| && r.events[..|s.events|] == s.events
  }

  lemma ExtendsTrans(a: TracerState, b: TracerState, c: TracerState)
    requires Extends(a, b) && Extends(b, c)
    ensures Extends(a, c)
  {
    assert c.events[..|a.events|] == c.events[..|b.events|][..|a.events|];
  }

  /** An operation other than `reset` keeps the invariant and only appends. */
  lemma ApplyGrows(s: TracerState, op: Op)
    requires Inv(s) && !op.ResetOp?
    ensures Inv(Apply(s, op)) && Extends(s, Apply(s, op))
  {
    ApplyKeepsInv(s, op);
    Agreement.ApplyEvents(s, op);
  }

  lemma {:induction false} PermStateGrows(s: TracerState, nums: seq<int>, visited: seq<bool>, chosen: seq<nat>, depth: int)
    requires Inv(s)
    requires |visited| == |nums| && |chosen| <= |nums| && InRange(chosen, |nums|)
    ensures Inv(PermState(s, nums, visited, chosen, depth))
    ensures Extends(s, PermState(s, nums, visited, chosen, depth))
    decreases |nums| - |chosen|, 3, 0
  {
    var cur := Pick(nums, chosen);
    var called := Apply(s, PermCall(cur, depth));
    ApplyGrows(s, PermCall(cur, depth));
    if |cur| == |nums| {
      ApplyGrows(called, ReturnOp(IntArray(cur), Some(3)));
      ExtendsTrans(s, called, Apply(called, ReturnOp(IntArray(cur), Some(3))));
    } else {
      var looped := LoopState(called, nums, visited, chosen, depth, 0);
      LoopStateGrows(called, nums, visited, chosen, depth, 0);
      ApplyGrows(looped, ReturnOp(Null, Some(18)));
      ExtendsTrans(s, called, looped);
      ExtendsTrans(s, looped, Apply(looped, ReturnOp(Null, Some(18))));
    }
  }

  lemma {:induction false} LoopStateGrows(s: TracerState, nums: seq<int>, visited: seq<bool>, chosen: seq<nat>, depth: int, i: nat)
    requires Inv(s)
    requires |visited| == |nums| && |chosen| < |nums| && InRange(chosen, |nums|) && i <= |nums|
    ensures Inv(LoopState(s, nums, visited, chosen, depth, i))
    ensures Extends(s, LoopState(s, nums, visited, chosen, depth, i))
    decreases |nums| - |chosen|, 2, |nums| - i
  {
    if i < |nums| {
      var t := IterState(s, nums, visited, chosen, depth, i);
      IterStateGrows(s, nums, visited, chosen, depth, i);
      LoopStateGrows(t, nums, visited, chosen, depth, i + 1);
      ExtendsTrans(s, t, LoopState(t, nums, visited, chosen, depth, i + 1));
    } else {
      assert s.events[..|s.events|] == s.events;
    }
  }

  lemma {:induction false} IterStateGrows(s: TracerState, nums: seq<int>, visited: seq<bool>, chosen: seq<nat>, depth: int, i: nat)
    requires Inv(s)
    requires |visited| == |nums| && |chosen| < |nums| && InRange(chosen, |nums|) && i < |nums|
    ensures Inv(IterState(s, nums, visited, chosen, depth, i))
    ensures Extends(s, IterState(s, nums, visited, chosen, depth, i))
    decreases |nums| - |chosen|, 1, 0
  {
    if visited[i] {
      assert s.events[..|s.events|] == s.events;
    } else {
      var chose := ChoiceState(s, nums, visited, chosen, i);
      SetsGrow(s, nums, visited, chosen, i);
      PickSnoc(nums, chosen, i);
      var inner := PermState(chose, nums, visited[i := true], chosen + [i], depth + 1);
      PermStateGrows(chose, nums, visited[i := true], chosen + [i], depth + 1);
      SetsGrow(inner, nums, visited, chosen, i);
      ExtendsTrans(s, chose, inner);
      ExtendsTrans(s, inner, UndoState(inner, nums, visited, chosen, i));
    }
  }

  /** The VAR records of a choice and of an undo keep the invariant and only append. */
  lemma SetsGrow(s: TracerState, nums: seq<int>, visited: seq<bool>, chosen: seq<nat>, i: nat)
    requires Inv(s)
    requires |visited| == |nums| && InRange(chosen, |nums|) && i < |nums|
    ensures Inv(ChoiceState(s, nums, visited, chosen, i)) && Extends(s, ChoiceState(s, nums, visited, chosen, i))
    ensures Inv(UndoState(s, nums, visited, chosen, i)) && Extends(s, UndoState(s, nums, visited, chosen, i))
  {
    var m1 := Apply(s, SetOp("visited", BoolArray(visited[i := true]), Some(10)));
    ApplyGrows(s, SetOp("visited", BoolArray(visited[i := true]), Some(10)));
    PickSnoc(nums, chosen, i);
    ApplyGrows(m1, SetOp("currentPerm", IntArray(Pick(nums, chosen + [i])), Some(11)));
    ExtendsTrans(s, m1, ChoiceState(s, nums, visited, chosen, i));
    var m2 := Apply(s, SetOp("visited", BoolArray(visited), Some(15)));
    ApplyGrows(s, SetOp("visited", BoolArray(visited), Some(15)));
    ApplyGrows(m2, SetOp("currentPerm", IntArray(Pick(nums, chosen)), Some(16)));
    ExtendsTrans(s, m2, UndoState(s, nums, visited, chosen, i));
  }

  /**
   * The timeline of `run(nums)` opens with the LOG of the input, attributed
   * to no frame, and holds exactly as many RETURN events as CALL events.
   */
  lemma RunEvents(nums: seq<int>)
    ensures var es := RunState(nums).events;
      |es| > 0 && es[0].kind == Log && es[0].frameId == None &&
      Count(es, Call) == Count(es, Return)
  {
    InitInv();
    var op := LogOp(StartMessage(nums), None);
    var start := Apply(Init, op);
    ApplyGrows(Init, op);
    LogFacts(Init, StartMessage(nums), None);
    PermStateGrows(start, nums, AllFalse(|nums|), [], 0);
    RunBalanced(nums);
    var es := RunState(nums).events;
    assert es[0] == es[..|start.events|][0];
  }

  // --- The permutations found ---

  /** The index sequences of the permutations an invocation completes, in the order it completes them. */
  function Leaves(n: nat, visited: seq<bool>, chosen: seq<nat>): (r: seq<seq<nat>>)
    requires |visited| == n && |chosen| <= n && InRange(chosen, n)
    ensures forall k :: 0 <= k < |r| ==> InRange(r[k], n)
    decreases n - |chosen|, 1, 0
  {
    if |chosen| == n then [chosen] else LeavesFrom(n, visited, chosen, 0)
  }

  function LeavesFrom(n: nat, visited: seq<bool>, chosen: seq<nat>, i: nat): (r: seq<seq<nat>>)
    requires |visited| == n && |chosen| < n && InRange(chosen, n) && i <= n
    ensures forall k :: 0 <= k < |r| ==> InRange(r[k], n)
    decreases n - |chosen|, 0, n - i
  {
    if i == n then []
    else
      var here := if visited[i] then [] else Leaves(n, visited[i := true], chosen + [i]);
      var later := LeavesFrom(n, visited, chosen, i + 1);
      assert forall k :: 0 <= k < |here + later| ==> (here + later)[k] == (if k < |here| then here[k] else later[k - |here|]);
      here + later
  }

  /** The permutations themselves: the elements at each completed index sequence. */
  function Picks(nums: seq<int>, ls: seq<seq<nat>>): (r: seq<seq<int>>)
    requires forall k :: 0 <= k < |ls| ==> InRange(ls[k], |nums|)
    ensures |r| == |ls| && forall k :: 0 <= k < |ls| ==> r[k] == Pick(nums, ls[k])
  {
    if |ls| == 0 then [] else [Pick(nums, ls[0])] + Picks(nums, ls[1..])
  }

  lemma PicksAppend(nums: seq<int>, a: seq<seq<nat>>, b: seq<seq<nat>>)
    requires forall k :: 0 <= k < |a| ==> InRange(a[k], |nums|)
    requires forall k :: 0 <= k < |b| ==> InRange(b[k], |nums|)
    ensures forall k :: 0 <= k < |a + b| ==> InRange((a + b)[k], |nums|)
    ensures Picks(nums, a + b) == Picks(nums, a) + Picks(nums, b)
  {
    assert forall k :: 0 <= k < |a + b| ==> (a + b)[k] == (if k < |a| then a[k] else b[k - |a|]);
    var l, r := Picks(nums, a + b), Picks(nums, a) + Picks(nums, b);
    assert |l| == |r|;
    assert forall k :: 0 <= k < |l| ==> l[k] == r[k];
  }

  /**
   * Every completed index sequence extends `chosen`, has `n` entries and
   * repeats none: a visited index is never chosen again.
   */
  lemma {:induction false} LeavesArePermutations(n: nat, visited: seq<bool>, chosen: seq<nat>)
    requires |visited| == n && |chosen| <= n && Marks(visited, chosen)
    ensures forall l :: l in Leaves(n, visited, chosen) ==> |l| == n && Distinct(l) && l[..|chosen|] == chosen
    decreases n - |chosen|, 1, 0
  {
    if |chosen| < n {
      LeavesFromArePermutations(n, visited, chosen, 0);
    }
  }

  lemma {:induction false} LeavesFromArePermutations(n: nat, visited: seq<bool>, chosen: seq<nat>, i: nat)
    requires |visited| == n && |chosen| < n && i <= n && Marks(visited, chosen)
    ensures forall l :: l in LeavesFrom(n, visited, chosen, i) ==> |l| == n && Distinct(l) && l[..|chosen|] == chosen
    decreases n - |chosen|, 0, n - i
  {
    if i < n {
      LeavesFromArePermutations(n, visited, chosen, i + 1);
      if !visited[i] {
        var v, c := visited[i := true], chosen + [i];
        ChooseKeepsMarks(visited, chosen, i);
        LeavesArePermutations(n, v, c);
        forall l | l in Leaves(n, v, c)
          ensures l[..|chosen|] == chosen
        {
          assert l[..|chosen|] == l[..|c|][..|chosen|];
        }
      }
    }
  }

  /** Choosing an unvisited index keeps the flags and the chosen indices in step. */
  lemma ChooseKeepsMarks(visited: seq<bool>, chosen: seq<nat>, i: nat)
    requires Marks(visited, chosen) && i < |visited| && !visited[i]
    ensures Marks(visited[i := true], chosen + [i])
  {
    var c := chosen + [i];
    forall a, b | 0 <= a < b < |c|
      ensures c[a] != c[b]
    {
      if b == |chosen| {
        assert c[a] == chosen[a] && chosen[a] in chosen;
      }
    }
    forall j | 0 <= j < |visited|
      ensures visited[i := true][j] <==> j in c
    {
      if j in c && j != i {
        var k :| 0 <= k < |c| && c[k] == j;
        assert k < |chosen| && chosen[k] == j;
      }
    }
  }

  /** Extending the chosen indices by `i` extends `currentPerm` by `nums[i]`. */
  lemma PickSnoc(nums: seq<int>, chosen: seq<nat>, i: nat)
    requires InRange(chosen, |nums|) && i < |nums|
    ensures InRange(chosen + [i], |nums|)
    ensures Pick(nums, chosen + [i]) == Pick(nums, chosen) + [nums[i]]
  {
    assert (chosen + [i])[..|chosen|] == chosen;
  }

  /*
   * The same permutations as they reach `result`: each function appends
   * what its part of the search pushes to the list `acc` found before it.
   */

  /** `acc` followed by the permutations one invocation pushes. */
  function PermsInto(nums: seq<int>, visited: seq<bool>, chosen: seq<nat>, acc: seq<seq<int>>): seq<seq<int>>
    requires |visited| == |nums| && |chosen| <= |nums| && InRange(chosen, |nums|)
    decreases |nums| - |chosen|, 2, 0
  {
    if |chosen| == |nums| then acc + [Pick(nums, chosen)]
    else LoopPermsInto(nums, visited, chosen, 0, acc)
  }

  /** `acc` followed by the permutations iterations `i`, `i + 1`, ... of the loop push. */
  function LoopPermsInto(nums: seq<int>, visited: seq<bool>, chosen: seq<nat>, i: nat, acc: seq<seq<int>>): seq<seq<int>>
    requires |visited| == |nums| && |chosen| < |nums| && InRange(chosen, |nums|) && i <= |nums|
    decreases |nums| - |chosen|, 1, |nums| - i
  {
    if i == |nums| then acc
    else LoopPermsInto(nums, visited, chosen, i + 1, IterPermsInto(nums, visited, chosen, i, acc))
  }

  /** `acc` followed by the permutations iteration `i` pushes: none when `i` is visited. */
  function IterPermsInto(nums: seq<int>, visited: seq<bool>, chosen: seq<nat>, i: nat, acc: seq<seq<int>>): seq<seq<int>>
    requires |visited| == |nums| && |chosen| < |nums| && InRange(chosen, |nums|) && i < |nums|
    decreases |nums| - |chosen|, 0, 0
  {
    if visited[i] then acc else PermsInto(nums, visited[i := true], chosen + [i], acc)
  }

  /** What an invocation pushes is the list of its completed index sequences, picked from `nums`. */
  lemma {:induction false} PermsIntoLeaves(nums: seq<int>, visited: seq<bool>, chosen: seq<nat>, acc: seq<seq<int>>)
    requires |visited| == |nums| && |chosen| <= |nums| && InRange(chosen, |nums|)
    ensures PermsInto(nums, visited, chosen, acc) == acc + Picks(nums, Leaves(|nums|, visited, chosen))
    decreases |nums| - |chosen|, 2, 0
  {
    if |chosen| < |nums| {
      LoopPermsIntoLeaves(nums, visited, chosen, 0, acc);
    }
  }

  lemma {:induction false} LoopPermsIntoLeaves(nums: seq<int>, visited: seq<bool>, chosen: seq<nat>, i: nat, acc: seq<seq<int>>)
    requires |visited| == |nums| && |chosen| < |nums| && InRange(chosen, |nums|) && i <= |nums|
    ensures LoopPermsInto(nums, visited, chosen, i, acc) == acc + Picks(nums, LeavesFrom(|nums|, visited, chosen, i))
    decreases |nums| - |chosen|, 1, |nums| - i
  {
    if i < |nums| {
      var here := if visited[i] then [] else Leaves(|nums|, visited[i := true], chosen + [i]);
      var later := LeavesFrom(|nums|, visited, chosen, i + 1);
      var mid := IterPermsInto(nums, visited, chosen, i, acc);
      if !visited[i] {
        PermsIntoLeaves(nums, visited[i := true], chosen + [i], acc);
      }
      assert mid == acc + Picks(nums, here);
      LoopPermsIntoLeaves(nums, visited, chosen, i + 1, mid);
      PicksAppend(nums, here, later);
      assert LeavesFrom(|nums|, visited, chosen, i) == here + later;
      AppendAssoc(acc, Picks(nums, here), Picks(nums, later));
    }
  }

  lemma AppendAssoc<T>(a: seq<T>, b: seq<T>, c: seq<T>)
    ensures (a + b) + c == a + (b + c)
  {
  }

  /** `p` lists every index below `n` exactly once. */
  ghost predicate IsIndexPerm(p: seq<nat>, n: nat)
  {
    |p| == n && InRange(p, n) && Distinct(p)
  }

  /** No entry of `s` occurs twice. */
  ghost predicate NoRepeats<T>(s: seq<T>)
  {
    forall a, b :: 0 <= a < b < |s| ==> s[a] != s[b]
  }

  /**
   * Every arrangement of all `n` indices that extends `chosen` is completed:
   * the search misses no permutation.
   */
  lemma {:induction false} LeavesComplete(n: nat, visited: seq<bool>, chosen: seq<nat>, p: seq<nat>)
    requires |visited| == n && |chosen| <= n && Marks(visited, chosen)
    requires IsIndexPerm(p, n) && p[..|chosen|] == chosen
    ensures p in Leaves(n, visited, chosen)
    decreases n - |chosen|, 1, 0
  {
    if |chosen| == n {
      assert p == p[..|chosen|];
    } else {
      LeavesFromComplete(n, visited, chosen, 0, p);
    }
  }

  lemma {:induction false} LeavesFromComplete(n: nat, visited: seq<bool>, chosen: seq<nat>, i: nat, p: seq<nat>)
    requires |visited| == n && |chosen| < n && i <= n && Marks(visited, chosen)
    requires IsIndexPerm(p, n) && p[..|chosen|] == chosen && i <= p[|chosen|]
    ensures p in LeavesFrom(n, visited, chosen, i)
    decreases n - |chosen|, 0, n - i
  {
    var j := p[|chosen|];
    if i == j {
      assert !visited[i] by {
        forall a | 0 <= a < |chosen|
          ensures chosen[a] != i
        {
          assert chosen[a] == p[a];
        }
      }
      ChooseKeepsMarks(visited, chosen, i);
      assert p[..|chosen| + 1] == chosen + [i];
      LeavesComplete(n, visited[i := true], chosen + [i], p);
    } else {
      LeavesFromComplete(n, visited, chosen, i + 1, p);
    }
  }

  /** The leaves from index `i` on all continue `chosen` with an index `i` or later. */
  lemma {:induction false} LeavesFromAbove(n: nat, visited: seq<bool>, chosen: seq<nat>, i: nat)
    requires |visited| == n && |chosen| < n && i <= n && Marks(visited, chosen)
    ensures forall l :: l in LeavesFrom(n, visited, chosen, i) ==> |l| > |chosen| && l[|chosen|] >= i
    decreases n - i
  {
    if i < n {
      LeavesFromAbove(n, visited, chosen, i + 1);
      if !visited[i] {
        var c := chosen + [i];
        ChooseKeepsMarks(visited, chosen, i);
        LeavesArePermutations(n, visited[i := true], c);
        forall l | l in Leaves(n, visited[i := true], c)
          ensures |l| > |chosen| && l[|chosen|] == i
        {
          assert l[|chosen|] == l[..|c|][|chosen|];
        }
      }
    }
  }

  /** No permutation is completed twice. */
  lemma {:induction false} LeavesNoRepeats(n: nat, visited: seq<bool>, chosen: seq<nat>)
    requires |visited| == n && |chosen| <= n && Marks(visited, chosen)
    ensures NoRepeats(Leaves(n, visited, chosen))
    decreases n - |chosen|, 1, 0
  {
    if |chosen| < n {
      LeavesFromNoRepeats(n, visited, chosen, 0);
    }
  }

  lemma {:induction false} LeavesFromNoRepeats(n: nat, visited: seq<bool>, chosen: seq<nat>, i: nat)
    requires |visited| == n && |chosen| < n && i <= n && Marks(visited, chosen)
    ensures NoRepeats(LeavesFrom(n, visited, chosen, i))
    decreases n - |chosen|, 0, n - i
  {
    if i < n {
      var later := LeavesFrom(n, visited, chosen, i + 1);
      LeavesFromNoRepeats(n, visited, chosen, i + 1);
      if !visited[i] {
        var c := chosen + [i];
        var here := Leaves(n, visited[i := true], c);
        ChooseKeepsMarks(visited, chosen, i);
        LeavesNoRepeats(n, visited[i := true], c);
        LeavesArePermutations(n, visited[i := true], c);
        forall l | l in here
          ensures |l| > |chosen| && l[|chosen|] == i
        {
          assert l[|chosen|] == l[..|c|][|chosen|];
        }
        LeavesFromAbove(n, visited, chosen, i + 1);
        SplitNoRepeats(here, later, |chosen|, i);
      }
    }
  }

  /** Two repeat-free lists of sequences that differ at position `pos` have no entry in common. */
  lemma SplitNoRepeats(here: seq<seq<nat>>, later: seq<seq<nat>>, pos: nat, i: nat)
    requires NoRepeats(here) && NoRepeats(later)
    requires forall l :: l in here ==> |l| > pos && l[pos] == i
    requires forall l :: l in later ==> |l| > pos && l[pos] >= i + 1
    ensures NoRepeats(here + later)
  {
    var all := here + later;
    forall a, b | 0 <= a < b < |all|
      ensures all[a] != all[b]
    {
      if a < |here| && b >= |here| {
        assert all[a] == here[a] && here[a] in here;
        assert all[b] == later[b - |here|] && later[b - |here|] in later;
      } else if a >= |here| {
        assert all[a] == later[a - |here|] && all[b] == later[b - |here|];
      }
    }
  }

  /**
   * What `run(nums)` leaves in `result`: one permutation per completed index
   * sequence, in order; the completed sequences are exactly the arrangements
   * of all indices, each once.
   */
  lemma RunResults(nums: seq<int>)
    ensures PermsInto(nums, AllFalse(|nums|), [], []) == Picks(nums, Leaves(|nums|, AllFalse(|nums|), []))
    ensures forall l :: l in Leaves(|nums|, AllFalse(|nums|), []) <==> IsIndexPerm(l, |nums|)
    ensures NoRepeats(Leaves(|nums|, AllFalse(|nums|), []))
  {
    var v := AllFalse(|nums|);
    var ls := Leaves(|nums|, v, []);
    PermsIntoLeaves(nums, v, [], []);
    assert [] + Picks(nums, ls) == Picks(nums, ls);
    assert Marks(v, []);
    LeavesArePermutations(|nums|, v, []);
    LeavesNoRepeats(|nums|, v, []);
    forall p | IsIndexPerm(p, |nums|)
      ensures p in ls
    {
      LeavesComplete(|nums|, v, [], p);
    }
  }

  /** `run(nums)` puts every arrangement of `nums` into `result`. */
  lemma RunFindsEvery(nums: seq<int>)
    ensures forall p :: IsIndexPerm(p, |nums|) ==> Pick(nums, p) in PermsInto(nums, AllFalse(|nums|), [], [])
  {
    var ls := Leaves(|nums|, AllFalse(|nums|), []);
    RunResults(nums);
    forall p | IsIndexPerm(p, |nums|)
      ensures Pick(nums, p) in Picks(nums, ls)
    {
      var k :| 0 <= k < |ls| && ls[k] == p;
      assert Picks(nums, ls)[k] == Pick(nums, p);
    }
  }

  // --- How many permutations are found ---

  /** The number of clear flags at index `i` and after. */
  function Unvisited(visited: seq<bool>, i: nat): (c: nat)
    decreases |visited| - i
  {
    if i >= |visited| then 0 else (if visited[i] then 0 else 1) + Unvisited(visited, i + 1)
  }

  /** Setting a clear flag at `j` removes one clear flag from every suffix that holds `j`. */
  lemma {:induction false} UnvisitedMark(visited: seq<bool>, i: nat, j: nat)
    requires j < |visited| && !visited[j]
    ensures Unvisited(visited[j := true], i) == Unvisited(visited, i) - (if i <= j then 1 else 0)
    decreases |visited| - i
  {
    if i < |visited| {
      UnvisitedMark(visited, i + 1, j);
    }
  }

  lemma AllFalseUnvisited(n: nat, i: nat)
    requires i <= n
    ensures Unvisited(AllFalse(n), i) == n - i
    decreases n - i
  {
    if i < n {
      AllFalseUnvisited(n, i + 1);
    }
  }

  /** An invocation with `m` clear flags and `m` places left to fill completes `m!` index sequences. */
  lemma {:induction false} LeavesCount(n: nat, visited: seq<bool>, chosen: seq<nat>)
    requires |visited| == n && |chosen| <= n && InRange(chosen, n)
    requires Unvisited(visited, 0) == n - |chosen|
    ensures |Leaves(n, visited, chosen)| == Factorial.Fact(n - |chosen|)
    decreases n - |chosen|, 1, 0
  {
    if |chosen| < n {
      LeavesFromCount(n, visited, chosen, 0);
      assert Factorial.Fact(n - |chosen|) == (n - |chosen|) * Factorial.Fact(n - |chosen| - 1);
    }
  }

  lemma {:induction false} LeavesFromCount(n: nat, visited: seq<bool>, chosen: seq<nat>, i: nat)
    requires |visited| == n && |chosen| < n && InRange(chosen, n) && i <= n
    requires Unvisited(visited, 0) == n - |chosen|
    ensures |LeavesFrom(n, visited, chosen, i)| == Unvisited(visited, i) * Factorial.Fact(n - |chosen| - 1)
    decreases n - |chosen|, 0, n - i
  {
    if i < n {
      var f := Factorial.Fact(n - |chosen| - 1);
      var here := if visited[i] then [] else Leaves(n, visited[i := true], chosen + [i]);
      LeavesFromCount(n, visited, chosen, i + 1);
      assert |LeavesFrom(n, visited, chosen, i)| == |here| + Unvisited(visited, i + 1) * f;
      if !visited[i] {
        UnvisitedMark(visited, 0, i);
        assert InRange(chosen + [i], n) by {
          assert forall k :: 0 <= k < |chosen| ==> (chosen + [i])[k] == chosen[k];
        }
        LeavesCount(n, visited[i := true], chosen + [i]);
        MulSucc(Unvisited(visited, i + 1), f);
      }
    }
  }

  lemma MulSucc(u: nat, f: int)
    ensures (1 + u) * f == f + u * f
  {
  }

  /** `run(nums)` pushes `|nums|!` permutations. */
  lemma RunCount(nums: seq<int>)
    ensures |PermsInto(nums, AllFalse(|nums|), [], [])| == Factorial.Fact(|nums|)
  {
    var v := AllFalse(|nums|);
    PermsIntoLeaves(nums, v, [], []);
    AllFalseUnvisited(|nums|, 0);
    LeavesCount(|nums|, v, []);
  }

  // --- The instrumented procedure ---

  class PermutationsAlgo {
    const tracer: RecursionTracer
    var nums: seq<int>
    var result: seq<seq<int>>
    var visited: seq<bool>
    /** The one array every invocation extends and shortens in place. */
    var currentPerm: seq<int>

    constructor (tracer: RecursionTracer)
      ensures this.tracer == tracer
      ensures nums == [] && result == [] && visited == [] && currentPerm == []
    {
      this.tracer := tracer;
      nums := [];
      result := [];
      visited := [];
      currentPerm := [];
    }

    /**
     * `permute(currentPerm, depth)`: the tracer advanced by exactly the
     * invocation's operations (whatever operations `k` follow them), the
     * permutations it completes pushed onto `result`, and `visited` and
     * `currentPerm` as they were on entry. Every invocation is made with
     * `depth` equal to the length of `currentPerm`.
     */
    method Permute(depth: int, ghost chosen: seq<nat>)
      requires tracer.Valid()
      requires |visited| == |nums| && |chosen| <= |nums| && InRange(chosen, |nums|)
      requires currentPerm == Pick(nums, chosen)
      requires depth == |currentPerm|
      modifies tracer, this`visited, this`currentPerm, this`result
      ensures tracer.Valid()
      ensures tracer.Abs() == PermState(old(tracer.Abs()), nums, old(visited), chosen, depth)
      ensures result == PermsInto(nums, old(visited), chosen, old(result))
      ensures visited == old(visited) && currentPerm == old(currentPerm)
      decreases |nums| - |chosen|, 3
    {
      var frameId := Enter(depth);
      if |currentPerm| == |nums| {
        Found();
        return;
      }
      Explore(depth, chosen);
      Leave();
    }

    /** The opening of an invocation: the CALL recording `{ currentPerm, depth }`, then the report of the base-case check. */
    method Enter(depth: int) returns (frameId: string)
      requires tracer.Valid()
      modifies tracer
      ensures tracer.Valid()
      ensures tracer.Abs() == Apply(old(tracer.Abs()), PermCall(currentPerm, depth))
    {
      frameId := tracer.Call("permute", map["currentPerm" := IntArray(currentPerm), "depth" := Num(depth)], Some(1));
      tracer.Step(CheckBaseText(|currentPerm|, |nums|), 2);
    }

    /** The base case: report the permutation, push a copy of it onto `result`, and return a copy of it. */
    method Found()
      requires tracer.Valid()
      modifies tracer, this`result
      ensures tracer.Valid()
      ensures tracer.Abs() == Apply(old(tracer.Abs()), ReturnOp(IntArray(currentPerm), Some(3)))
      ensures result == old(result) + [currentPerm]
    {
      tracer.Step(FoundText(currentPerm), 3);
      result := result + [currentPerm];
      tracer.Return(IntArray(currentPerm), Some(3));
    }

    /** The end of the loop: report it and return null. */
    method Leave()
      requires tracer.Valid()
      modifies tracer
      ensures tracer.Valid()
      ensures tracer.Abs() == Apply(old(tracer.Abs()), ReturnOp(Null, Some(18)))
    {
      tracer.Step(LoopDoneText, 18);
      tracer.Return(Null, Some(18));
    }

    /** The loop of `permute` over every index of `nums`. */
    method Explore(depth: int, ghost chosen: seq<nat>)
      requires tracer.Valid()
      requires |visited| == |nums| && |chosen| < |nums| && InRange(chosen, |nums|)
      requires currentPerm == Pick(nums, chosen)
      requires depth == |currentPerm|
      modifies tracer, this`visited, this`currentPerm, this`result
      ensures tracer.Valid()
      ensures tracer.Abs() == LoopState(old(tracer.Abs()), nums, old(visited), chosen, depth, 0)
      ensures result == LoopPermsInto(nums, old(visited), chosen, 0, old(result))
      ensures visited == old(visited) && currentPerm == old(currentPerm)
      decreases |nums| - |chosen|, 2
    {
      ghost var s0, v0, cur, r0 := tracer.Abs(), visited, currentPerm, result;
      var i := 0;
      while i < |nums|
        invariant 0 <= i <= |nums|
        invariant tracer.Valid()
        invariant visited == v0 && currentPerm == cur
        invariant LoopState(s0, nums, v0, chosen, depth, 0) == LoopState(tracer.Abs(), nums, v0, chosen, depth, i)
        invariant LoopPermsInto(nums, v0, chosen, 0, r0) == LoopPermsInto(nums, v0, chosen, i, result)
      {
        Iterate(i, depth, chosen);
        i := i + 1;
      }
    }

    /**
     * One iteration of the loop of `permute`: report the index and the
     * check of its flag, then skip a visited index, or choose it, recurse
     * and undo the choice.
     */
    method Iterate(i: nat, depth: int, ghost chosen: seq<nat>)
      requires tracer.Valid()
      requires |visited| == |nums| && |chosen| < |nums| && InRange(chosen, |nums|) && i < |nums|
      requires currentPerm == Pick(nums, chosen)
      requires depth == |currentPerm|
      modifies tracer, this`visited, this`currentPerm, this`result
      ensures tracer.Valid()
      ensures tracer.Abs() == IterState(old(tracer.Abs()), nums, old(visited), chosen, depth, i)
      ensures result == IterPermsInto(nums, old(visited), chosen, i, old(result))
      ensures visited == old(visited) && currentPerm == old(currentPerm)
      decreases |nums| - |chosen|, 1
    {
      tracer.Step(LoopText(i, nums[i]), 5);
      tracer.Step(VisitedText(i), 6);
      if visited[i] {
        tracer.Step(SkipText(nums[i]), 7);
        return;
      }
      ChooseAndRecurse(i, depth, chosen);
    }

    /** An unvisited index: choose it, recurse with it chosen, and undo the choice. */
    method ChooseAndRecurse(i: nat, depth: int, ghost chosen: seq<nat>)
      requires tracer.Valid()
      requires |visited| == |nums| && |chosen| < |nums| && InRange(chosen, |nums|) && i < |nums| && !visited[i]
      requires currentPerm == Pick(nums, chosen)
      requires depth == |currentPerm|
      modifies tracer, this`visited, this`currentPerm, this`result
      ensures tracer.Valid()
      ensures tracer.Abs() == ChooseState(old(tracer.Abs()), nums, old(visited), chosen, depth, i)
      ensures result == PermsInto(nums, old(visited)[i := true], chosen + [i], old(result))
      ensures visited == old(visited) && currentPerm == old(currentPerm)
      decreases |nums| - |chosen|, 0
    {
      ghost var v0 := visited;
      Choose(i, chosen);
      tracer.Step(RecurseText, 12);
      Permute(depth + 1, chosen + [i]);
      Undo(i, v0, chosen);
    }

    /**
     * Choosing index `i`: report it, set its flag, extend `currentPerm` by
     * `nums[i]`, and record both.
     */
    method Choose(i: nat, ghost chosen: seq<nat>)
      requires tracer.Valid()
      requires |visited| == |nums| && |chosen| < |nums| && InRange(chosen, |nums|) && i < |nums|
      requires currentPerm == Pick(nums, chosen)
      modifies tracer, this`visited, this`currentPerm
      ensures tracer.Valid()
      ensures InRange(chosen + [i], |nums|)
      ensures tracer.Abs() == ChoiceState(old(tracer.Abs()), nums, old(visited), chosen, i)
      ensures visited == old(visited)[i := true] && currentPerm == Pick(nums, chosen + [i])
      ensures currentPerm == old(currentPerm) + [nums[i]]
    {
      PickSnoc(nums, chosen, i);
      tracer.Step(ChooseText(nums[i]), 9);
      visited := visited[i := true];
      currentPerm := currentPerm + [nums[i]];
      tracer.Set("visited", BoolArray(visited), Some(10));
      tracer.Set("currentPerm", IntArray(currentPerm), Some(11));
    }

    /**
     * Undoing the choice of index `i`: report it, clear its flag, drop the
     * last element of `currentPerm`, and record both.
     */
    method Undo(i: nat, ghost v0: seq<bool>, ghost chosen: seq<nat>)
      requires tracer.Valid()
      requires |v0| == |nums| && InRange(chosen, |nums|) && i < |nums| && !v0[i] && visited == v0[i := true]
      requires |currentPerm| > 0 && currentPerm[..|currentPerm| - 1] == Pick(nums, chosen)
      modifies tracer, this`visited, this`currentPerm
      ensures tracer.Valid()
      ensures tracer.Abs() == UndoState(old(tracer.Abs()), nums, v0, chosen, i)
      ensures visited == v0 && currentPerm == Pick(nums, chosen)
    {
      tracer.Step(BacktrackText(nums[i]), 14);
      visited := visited[i := false];
      assert visited == v0;
      currentPerm := currentPerm[..|currentPerm| - 1];
      tracer.Set("visited", BoolArray(visited), Some(15));
      tracer.Set("currentPerm", IntArray(currentPerm), Some(16));
    }

    /**
     * `run(nums)`: a reset tracer holding the start message and then the
     * session of `permute([], 0)`; `result` holds the permutations found,
     * and `visited` is all false again.
     */
    method Run(input: seq<int>) returns (timeline: seq<TraceEvent>)
      requires tracer.Valid()
      modifies this, tracer
      ensures tracer.Valid()
      ensures tracer.Abs() == RunState(input)
      ensures timeline == tracer.Abs().events
      ensures nums == input && result == PermsInto(input, AllFalse(|input|), [], [])
      ensures visited == AllFalse(|input|) && currentPerm == []
      ensures |result| == Factorial.Fact(|input|)
      ensures forall p :: IsIndexPerm(p, |input|) ==> Pick(input, p) in result
    {
      Start(input);
      ghost var start := tracer.Abs();
      Permute(0, []);
      assert tracer.Abs() == PermState(start, input, AllFalse(|input|), [], 0);
      timeline := tracer.GetTimeline();
      RunFindsEvery(input);
      RunCount(input);
    }

    /** The opening of `run`: the reset, the start message, and the fields set up for the search. */
    method Start(input: seq<int>)
      requires tracer.Valid()
      modifies this, tracer
      ensures tracer.Valid()
      ensures tracer.Abs() == Apply(Init, LogOp(StartMessage(input), None))
      ensures nums == input && result == [] && visited == AllFalse(|input|) && currentPerm == []
    {
      tracer.Reset();
      tracer.Log(StartMessage(input), None);
      nums := input;
      result := [];
      visited := AllFalse(|input|);
      currentPerm := [];
    }
  }

  /** The session `run(nums)` leaves in any tracer: the start message, then the outer invocation. */
  function RunState(nums: seq<int>): (r: TracerState)
    ensures WellFormed(r)
  {
    PermState(Apply(Init, LogOp(StartMessage(nums), None)), nums, AllFalse(|nums|), [], 0)
  }
}
