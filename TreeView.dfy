/**
 * The recursion-tree view of src/vis/TreeVisualizer.js: `buildTreeStructure`
 * makes one node per CALL event and links it under its parent,
 * `calculateLayout` gives every node a level (`y`) and a width,
 * `centerTree` puts the leaves side by side in depth-first order and each
 * parent above the middle of its children, and `update` sorts the frame ids
 * of a timeline prefix into created, active and returned.
 *
 * The node objects are kept in creation order in `nodes`; a node's
 * `children` are positions in that sequence (the objects the JavaScript
 * arrays point to), and `index` is the `Map` from frame id to node. SVG and
 * DOM output, zoom and the bounding box are not part of the model.
 */
module TreeView {
  import opened Wrappers
  import opened Values
  import opened Frames
  import opened Events
  import opened Replay

  /** A tree node: the frame's identity, its children, and its layout (`x`, `y`, `width`). */
  datatype TreeNode = TreeNode(
    id: string,
    name: string,
    args: map<string, Value>,
    children: seq<nat>,
    x: real,
    y: int,
    depth: int,
    parentId: Option<string>,
    width: int)

  /** The node objects, the id-to-node map and the root, as `buildTreeStructure` leaves them. */
  datatype Forest = Forest(nodes: seq<TreeNode>, index: map<string, nat>, root: Option<nat>)

  const NodeSize: int := 30
  const GapX: int := 20
  const LevelHeight: int := 80
  /** The distance between neighbouring leaves: a node's width plus the gap. */
  const LeafStep: real := 50.0

  /** Every CALL event carries the frame it opened (`event.data.frame`). */
  ghost predicate CallsCarryFrames(es: seq<TraceEvent>)
  {
    forall i :: 0 <= i < |es| && es[i].kind == Call ==> es[i].data.CallData?
  }

  /** The children lists of the nodes. */
  function Kids(nodes: seq<TreeNode>): (kids: seq<seq<nat>>)
    ensures |kids| == |nodes|
    ensures forall i :: 0 <= i < |nodes| ==> kids[i] == nodes[i].children
  {
    seq(|nodes|, i requires 0 <= i < |nodes| => nodes[i].children)
  }

  /**
   * Children are later nodes, listed in creation order: the child links
   * never point back, so the recursive layout passes terminate.
   */
  ghost predicate Forward(kids: seq<seq<nat>>)
  {
    (forall p, i :: 0 <= p < |kids| && 0 <= i < |kids[p]| ==> p < kids[p][i] < |kids|) &&
    (forall p, i, j :: 0 <= p < |kids| && 0 <= i < j < |kids[p]| ==> kids[p][i] < kids[p][j])
  }

  // ---------------------------------------------------------------
  // buildTreeStructure
  // ---------------------------------------------------------------

  /**
   * One event of `buildTreeStructure`: a CALL creates a node from its frame
   * and maps the frame id to it; when the frame's parent id is non-empty and
   * already mapped, the node is appended to that node's children, otherwise
   * it becomes the root. Any other event changes nothing.
   */
  function BuildStep(f: Forest, e: TraceEvent): (r: Forest)
    requires IndexOk(f)
    requires e.kind == Call ==> e.data.CallData?
    ensures IndexOk(r)
    ensures e.kind != Call ==> r == f
    ensures e.kind == Call ==>
      var fr := e.data.frame;
      var k := |f.nodes|;
      var linked := fr.parentId.Some? && fr.parentId.value != "" && fr.parentId.value in r.index;
      |r.nodes| == k + 1 && r.index == f.index[fr.id := k] &&
      r.nodes[k].id == fr.id && r.nodes[k].name == fr.name && r.nodes[k].args == fr.args &&
      r.nodes[k].depth == fr.depth && r.nodes[k].parentId == fr.parentId &&
      (forall j :: 0 <= j < k ==> r.nodes[j] == f.nodes[j].(children := r.nodes[j].children)) &&
      (linked ==>
         var p := r.index[fr.parentId.value];
         r.root == f.root &&
         r.nodes[p].children == (if p == k then [] else f.nodes[p].children) + [k] &&
         (forall j :: 0 <= j <= k && j != p ==> r.nodes[j].children == (if j == k then [] else f.nodes[j].children))) &&
      (!linked ==>
         r.root == Some(k) && r.nodes[k].children == [] &&
         (forall j :: 0 <= j < k ==> r.nodes[j] == f.nodes[j]))
  {
    if e.kind != Call then f
    else
      var fr := e.data.frame;
      var k := |f.nodes|;
      var node := TreeNode(fr.id, fr.name, fr.args, [], 0.0, 0, fr.depth, fr.parentId, 0);
      var nodes := f.nodes + [node];
      var index := f.index[fr.id := k];
      if fr.parentId.Some? && fr.parentId.value != "" && fr.parentId.value in index then
        var p := index[fr.parentId.value];
        Forest(nodes[p := nodes[p].(children := nodes[p].children + [k])], index, f.root)
      else
        Forest(nodes, index, Some(k))
  }

  /** The forest after the events, starting from `f`. */
  function Build(f: Forest, es: seq<TraceEvent>): (r: Forest)
    requires IndexOk(f) && CallsCarryFrames(es)
    ensures IndexOk(r)
    decreases |es|
  {
    if |es| == 0 then f
    else
      assert CallsCarryFrames(es[..|es| - 1]);
      BuildStep(Build(f, es[..|es| - 1]), es[|es| - 1])
  }

  /** The node index stays inside the node list. */
  ghost predicate IndexOk(f: Forest)
  {
    (forall id :: id in f.index ==> f.index[id] < |f.nodes|) &&
    (f.root.Some? ==> f.root.value < |f.nodes|)
  }

  /** The frames the CALL events carry, in order. */
  function CallFrames(es: seq<TraceEvent>): (frames: seq<FrameSnap>)
    requires CallsCarryFrames(es)
    decreases |es|
  {
    if |es| == 0 then []
    else
      assert CallsCarryFrames(es[..|es| - 1]);
      var init := CallFrames(es[..|es| - 1]);
      if es[|es| - 1].kind == Call then init + [es[|es| - 1].data.frame] else init
  }

  /** No CALL event's frame names itself as its parent. */
  ghost predicate NoSelfParent(es: seq<TraceEvent>)
  {
    forall i :: 0 <= i < |es| && es[i].kind == Call && es[i].data.CallData? ==>
      es[i].data.frame.parentId != Some(es[i].data.frame.id)
  }

  /**
   * Built from the empty forest, there is exactly one node per CALL event,
   * in call order, carrying that call's frame id, name, arguments, depth and
   * parent id, and the map sends each id to a node with that id.
   */
  lemma {:induction false} BuildOneNodePerCall(es: seq<TraceEvent>)
    requires CallsCarryFrames(es)
    ensures var f := Build(Forest([], map[], None), es);
      var frames := CallFrames(es);
      |f.nodes| == |frames| &&
      (forall j :: 0 <= j < |frames| ==>
        f.nodes[j].id == frames[j].id && f.nodes[j].name == frames[j].name &&
        f.nodes[j].args == frames[j].args && f.nodes[j].depth == frames[j].depth &&
        f.nodes[j].parentId == frames[j].parentId) &&
      (forall id :: id in f.index ==> f.nodes[f.index[id]].id == id)
    decreases |es|
  {
    if |es| > 0 {
      var init := es[..|es| - 1];
      var e := es[|es| - 1];
      assert CallsCarryFrames(init);
      BuildOneNodePerCall(init);
      var f0 := Build(Forest([], map[], None), init);
      assert Build(Forest([], map[], None), es) == BuildStep(f0, e);
    }
  }

  /**
   * When the event's frame does not name itself as its parent, a step keeps
   * the child links pointing forward and in creation order.
   */
  lemma BuildStepForward(f: Forest, e: TraceEvent)
    requires IndexOk(f) && Forward(Kids(f.nodes))
    requires e.kind == Call ==> e.data.CallData? && e.data.frame.parentId != Some(e.data.frame.id)
    ensures Forward(Kids(BuildStep(f, e).nodes))
  {
    if e.kind == Call {
      var r := BuildStep(f, e);
      var fr := e.data.frame;
      var k := |f.nodes|;
      var kids0 := Kids(f.nodes);
      var kids := Kids(r.nodes);
      if fr.parentId.Some? && fr.parentId.value != "" && fr.parentId.value in r.index {
        var p := r.index[fr.parentId.value];
        assert p != k;
        assert kids[p] == kids0[p] + [k];
        assert forall j :: 0 <= j < k && j != p ==> kids[j] == kids0[j];
      } else {
        assert forall j :: 0 <= j < k ==> kids[j] == kids0[j];
      }
      assert kids[k] == [];
    }
  }

  /** Built from a forest whose links point forward, with no frame its own parent, the links still point forward. */
  lemma {:induction false} BuildForward(f: Forest, es: seq<TraceEvent>)
    requires IndexOk(f) && Forward(Kids(f.nodes))
    requires CallsCarryFrames(es) && NoSelfParent(es)
    ensures Forward(Kids(Build(f, es).nodes))
    decreases |es|
  {
    if |es| > 0 {
      var init := es[..|es| - 1];
      assert CallsCarryFrames(init) && NoSelfParent(init);
      BuildForward(f, init);
      BuildStepForward(Build(f, init), es[|es| - 1]);
    }
  }

  /**
   * When the event's frame does not name itself as its parent, a step lists
   * no node as a child twice: the new node is listed once, under one parent.
   */
  lemma BuildStepUnique(f: Forest, e: TraceEvent)
    requires IndexOk(f) && Forward(Kids(f.nodes)) && UniqueParents(Kids(f.nodes))
    requires e.kind == Call ==> e.data.CallData? && e.data.frame.parentId != Some(e.data.frame.id)
    ensures UniqueParents(Kids(BuildStep(f, e).nodes))
  {
    if e.kind == Call {
      var r := BuildStep(f, e);
      var fr := e.data.frame;
      var k := |f.nodes|;
      var kids0 := Kids(f.nodes);
      var kids := Kids(r.nodes);
      if fr.parentId.Some? && fr.parentId.value != "" && fr.parentId.value in r.index {
        var p := r.index[fr.parentId.value];
        assert p != k;
        assert kids[p] == kids0[p] + [k];
        assert forall j :: 0 <= j < k && j != p ==> kids[j] == kids0[j];
        assert kids[k] == [];
        forall a, i, b, j | 0 <= a < |kids| && 0 <= i < |kids[a]| && 0 <= b < |kids| && 0 <= j < |kids[b]| &&
          kids[a][i] == kids[b][j]
          ensures a == b && i == j
        {
          if kids[a][i] == k {
            assert a == p && i == |kids0[p]|;
            assert b == p && j == |kids0[p]|;
          } else {
            assert kids[a][i] == kids0[a][i] && kids[b][j] == kids0[b][j];
          }
        }
      } else {
        assert forall j :: 0 <= j < k ==> kids[j] == kids0[j];
        assert kids[k] == [];
      }
    }
  }

  /** Built from a forest, with no frame its own parent, the links still form a forest. */
  lemma {:induction false} BuildUniqueParents(f: Forest, es: seq<TraceEvent>)
    requires IndexOk(f) && Forward(Kids(f.nodes)) && UniqueParents(Kids(f.nodes))
    requires CallsCarryFrames(es) && NoSelfParent(es)
    ensures UniqueParents(Kids(Build(f, es).nodes))
    decreases |es|
  {
    if |es| > 0 {
      var init := es[..|es| - 1];
      assert CallsCarryFrames(init) && NoSelfParent(init);
      BuildUniqueParents(f, init);
      BuildForward(f, init);
      BuildStepUnique(Build(f, init), es[|es| - 1]);
    }
  }

  /** Every called frame's id is a key of the map. */
  lemma {:induction false} BuildIndexesEveryId(es: seq<TraceEvent>)
    requires CallsCarryFrames(es)
    ensures var f := Build(Forest([], map[], None), es);
      forall j :: 0 <= j < |CallFrames(es)| ==> CallFrames(es)[j].id in f.index
    decreases |es|
  {
    if |es| > 0 {
      var init := es[..|es| - 1];
      assert CallsCarryFrames(init);
      BuildIndexesEveryId(init);
    }
  }

  // ---------------------------------------------------------------
  // calculateLayout and centerTree, as functions of the child links
  // ---------------------------------------------------------------

  /** The width `calculateLayout` gives node `k`: 30 for a leaf, otherwise its children's widths with 20 between neighbours. */
  function Width(kids: seq<seq<nat>>, k: nat): int
    requires Forward(kids) && k < |kids|
    decreases |kids| - k, 1
  {
    if |kids[k]| == 0 then NodeSize else ChildWidths(kids, k, |kids[k]|) - GapX
  }

  /** The running `totalWidth` after the first `i` children of node `k`. */
  function ChildWidths(kids: seq<seq<nat>>, k: nat, i: nat): int
    requires Forward(kids) && k < |kids| && i <= |kids[k]|
    decreases |kids| - k, 0, i
  {
    if i == 0 then 0 else ChildWidths(kids, k, i - 1) + Width(kids, kids[k][i - 1]) + GapX
  }

  /** How many leaves node `k`'s subtree has. */
  function Leaves(kids: seq<seq<nat>>, k: nat): (n: nat)
    requires Forward(kids) && k < |kids|
    ensures n >= 1
    decreases |kids| - k, 1
  {
    if |kids[k]| == 0 then 1 else LeavesUpTo(kids, k, |kids[k]|)
  }

  /** The leaves under the first `i` children of node `k`. */
  function LeavesUpTo(kids: seq<seq<nat>>, k: nat, i: nat): (n: nat)
    requires Forward(kids) && k < |kids| && i <= |kids[k]|
    ensures n >= i
    decreases |kids| - k, 0, i
  {
    if i == 0 then 0 else LeavesUpTo(kids, k, i - 1) + Leaves(kids, kids[k][i - 1])
  }

  /**
   * The `x` that `centerTree`'s traversal gives node `k` when the next free
   * leaf position is `start`: a leaf takes `start`, a parent the midpoint of
   * its first and last child.
   */
  function XOf(kids: seq<seq<nat>>, k: nat, start: real): real
    requires Forward(kids) && k < |kids|
    decreases |kids| - k
  {
    var n := |kids[k]|;
    if n == 0 then start
    else (XOf(kids, kids[k][0], start) + XOf(kids, kids[k][n - 1], ChildStart(kids, k, n - 1, start))) / 2.0
  }

  /** The next free leaf position once the first `i` children of node `k` are placed, starting at `start`. */
  function ChildStart(kids: seq<seq<nat>>, k: nat, i: nat, start: real): real
    requires Forward(kids) && k < |kids| && i <= |kids[k]|
  {
    start + LeafStep * LeavesUpTo(kids, k, i) as real
  }

  /** Each child moves the next free position on by one leaf step per leaf under it. */
  lemma ChildStartNext(kids: seq<seq<nat>>, k: nat, i: nat, start: real)
    requires Forward(kids) && k < |kids| && i < |kids[k]|
    ensures ChildStart(kids, k, i + 1, start) ==
      ChildStart(kids, k, i, start) + LeafStep * Leaves(kids, kids[k][i]) as real
  {
    assert LeavesUpTo(kids, k, i + 1) == LeavesUpTo(kids, k, i) + Leaves(kids, kids[k][i]);
  }

  /** The `x` of each leaf under node `k`, in depth-first order, with the next free position at `start`. */
  function LeafXs(kids: seq<seq<nat>>, k: nat, start: real): seq<real>
    requires Forward(kids) && k < |kids|
    decreases |kids| - k, 1
  {
    if |kids[k]| == 0 then [start] else LeafXsUpTo(kids, k, |kids[k]|, start)
  }

  function LeafXsUpTo(kids: seq<seq<nat>>, k: nat, i: nat, start: real): seq<real>
    requires Forward(kids) && k < |kids| && i <= |kids[k]|
    decreases |kids| - k, 0, i
  {
    if i == 0 then []
    else LeafXsUpTo(kids, k, i - 1, start) + LeafXs(kids, kids[k][i - 1], ChildStart(kids, k, i - 1, start))
  }

  /** Every width is at least a node's size: the first `i` children contribute at least 50 each. */
  lemma {:induction false} WidthAtLeastNode(kids: seq<seq<nat>>, k: nat)
    requires Forward(kids) && k < |kids|
    ensures Width(kids, k) >= NodeSize
    decreases |kids| - k, 1
  {
    if |kids[k]| > 0 {
      ChildWidthsAtLeast(kids, k, |kids[k]|);
    }
  }

  lemma {:induction false} ChildWidthsAtLeast(kids: seq<seq<nat>>, k: nat, i: nat)
    requires Forward(kids) && k < |kids| && i <= |kids[k]|
    ensures ChildWidths(kids, k, i) >= (NodeSize + GapX) * i
    decreases |kids| - k, 0, i
  {
    if i > 0 {
      ChildWidthsAtLeast(kids, k, i - 1);
      WidthAtLeastNode(kids, kids[k][i - 1]);
    }
  }

  /**
   * The leaves under node `k` are numbered from `start` in steps of 50 in
   * depth-first order: `LeafXs(k, 40)` is 40, 90, 140, …, one per leaf, so
   * leaf positions strictly increase.
   */
  lemma {:induction false} LeafXsSpaced(kids: seq<seq<nat>>, k: nat, start: real)
    requires Forward(kids) && k < |kids|
    ensures |LeafXs(kids, k, start)| == Leaves(kids, k)
    ensures forall j :: 0 <= j < |LeafXs(kids, k, start)| ==> LeafXs(kids, k, start)[j] == start + LeafStep * j as real
    decreases |kids| - k, 1
  {
    if |kids[k]| > 0 {
      LeafXsUpToSpaced(kids, k, |kids[k]|, start);
    }
  }

  lemma {:induction false} LeafXsUpToSpaced(kids: seq<seq<nat>>, k: nat, i: nat, start: real)
    requires Forward(kids) && k < |kids| && i <= |kids[k]|
    ensures |LeafXsUpTo(kids, k, i, start)| == LeavesUpTo(kids, k, i)
    ensures forall j :: 0 <= j < |LeafXsUpTo(kids, k, i, start)| ==> LeafXsUpTo(kids, k, i, start)[j] == start + LeafStep * j as real
    decreases |kids| - k, 0, i
  {
    if i > 0 {
      var before := LeavesUpTo(kids, k, i - 1);
      var s := start + LeafStep * before as real;
      LeafXsUpToSpaced(kids, k, i - 1, start);
      LeafXsSpaced(kids, kids[k][i - 1], s);
      var xs := LeafXsUpTo(kids, k, i - 1, start);
      var ys := LeafXs(kids, kids[k][i - 1], s);
      forall j | 0 <= j < |xs + ys| ensures (xs + ys)[j] == start + LeafStep * j as real {
        if j >= |xs| {
          assert (xs + ys)[j] == ys[j - |xs|] == s + LeafStep * (j - |xs|) as real;
        }
      }
    }
  }

  /** A leaf sits at `start`, and a parent lies between its first and last leaf. */
  lemma {:induction false} XWithinLeaves(kids: seq<seq<nat>>, k: nat, start: real)
    requires Forward(kids) && k < |kids|
    ensures |kids[k]| == 0 ==> XOf(kids, k, start) == start
    ensures start <= XOf(kids, k, start) <= start + LeafStep * (Leaves(kids, k) - 1) as real
    decreases |kids| - k
  {
    var n := |kids[k]|;
    if n > 0 {
      var first := kids[k][0];
      var last := kids[k][n - 1];
      var s := ChildStart(kids, k, n - 1, start);
      XWithinLeaves(kids, first, start);
      XWithinLeaves(kids, last, s);
      FirstChildLeaves(kids, k, n);
    }
  }

  /** The first child's leaves are among the leaves of the first `i` children. */
  lemma {:induction false} FirstChildLeaves(kids: seq<seq<nat>>, k: nat, i: nat)
    requires Forward(kids) && k < |kids| && 0 < i <= |kids[k]|
    ensures Leaves(kids, kids[k][0]) <= LeavesUpTo(kids, k, i)
    decreases i
  {
    if i > 1 {
      FirstChildLeaves(kids, k, i - 1);
    }
  }

  // ---------------------------------------------------------------
  // Subtrees, and what the two passes write into them
  // ---------------------------------------------------------------

  /** The nodes the recursive passes reach from node `k`: `k` and its children's subtrees. */
  ghost function Sub(kids: seq<seq<nat>>, k: nat): (s: set<nat>)
    requires Forward(kids) && k < |kids|
    ensures k in s
    ensures forall x :: x in s ==> k <= x < |kids|
    decreases |kids| - k, 1
  {
    {k} + SubUpTo(kids, k, |kids[k]|)
  }

  /** The subtrees of the first `i` children of node `k`. */
  ghost function SubUpTo(kids: seq<seq<nat>>, k: nat, i: nat): (s: set<nat>)
    requires Forward(kids) && k < |kids| && i <= |kids[k]|
    ensures forall x :: x in s ==> k < x < |kids|
    decreases |kids| - k, 0, i
  {
    if i == 0 then {} else SubUpTo(kids, k, i - 1) + Sub(kids, kids[k][i - 1])
  }

  /**
   * The level `calculateLayout(k, d)` writes into each node it reaches: `d`
   * for `k`, and one more for its children's subtrees, visited in order; a
   * node reached twice keeps the level of the later visit.
   */
  ghost function Levels(kids: seq<seq<nat>>, k: nat, d: int): (m: map<nat, int>)
    requires Forward(kids) && k < |kids|
    ensures m.Keys == Sub(kids, k)
    ensures m[k] == d
    decreases |kids| - k, 1
  {
    map[k := d] + LevelsUpTo(kids, k, |kids[k]|, d + 1)
  }

  /** The levels written under the first `i` children of node `k`, the children being at level `d`. */
  ghost function LevelsUpTo(kids: seq<seq<nat>>, k: nat, i: nat, d: int): (m: map<nat, int>)
    requires Forward(kids) && k < |kids| && i <= |kids[k]|
    ensures m.Keys == SubUpTo(kids, k, i)
    decreases |kids| - k, 0, i
  {
    if i == 0 then map[] else LevelsUpTo(kids, k, i - 1, d) + Levels(kids, kids[k][i - 1], d)
  }

  /**
   * The `x` the `positionLeaves` traversal from node `k` writes into each
   * node it reaches, with the next free leaf position at `start`: the
   * children's subtrees in order, each from where the previous one left
   * off, and then `k` itself.
   */
  ghost function Xs(kids: seq<seq<nat>>, k: nat, start: real): (m: map<nat, real>)
    requires Forward(kids) && k < |kids|
    ensures m.Keys == Sub(kids, k)
    ensures m[k] == XOf(kids, k, start)
    decreases |kids| - k, 1
  {
    XsUpTo(kids, k, |kids[k]|, start)[k := XOf(kids, k, start)]
  }

  /** The `x` written under the first `i` children of node `k`. */
  ghost function XsUpTo(kids: seq<seq<nat>>, k: nat, i: nat, start: real): (m: map<nat, real>)
    requires Forward(kids) && k < |kids| && i <= |kids[k]|
    ensures m.Keys == SubUpTo(kids, k, i)
    decreases |kids| - k, 0, i
  {
    if i == 0 then map[]
    else XsUpTo(kids, k, i - 1, start) + Xs(kids, kids[k][i - 1], ChildStart(kids, k, i - 1, start))
  }

  /** The leaves of node `k`'s subtree, in depth-first order. */
  ghost function LeafIds(kids: seq<seq<nat>>, k: nat): (ids: seq<nat>)
    requires Forward(kids) && k < |kids|
    ensures |ids| == Leaves(kids, k)
    ensures forall j :: 0 <= j < |ids| ==> ids[j] in Sub(kids, k) && |kids[ids[j]]| == 0
    decreases |kids| - k, 1
  {
    if |kids[k]| == 0 then [k] else LeafIdsUpTo(kids, k, |kids[k]|)
  }

  /** The leaves under the first `i` children of node `k`, in depth-first order. */
  ghost function LeafIdsUpTo(kids: seq<seq<nat>>, k: nat, i: nat): (ids: seq<nat>)
    requires Forward(kids) && k < |kids| && i <= |kids[k]|
    ensures |ids| == LeavesUpTo(kids, k, i)
    ensures forall j :: 0 <= j < |ids| ==> ids[j] in SubUpTo(kids, k, i) && |kids[ids[j]]| == 0
    decreases |kids| - k, 0, i
  {
    if i == 0 then [] else LeafIdsUpTo(kids, k, i - 1) + LeafIds(kids, kids[k][i - 1])
  }

  /**
   * No node is listed as a child twice, so the links form a forest and the
   * passes reach every node of a subtree once.
   */
  ghost predicate UniqueParents(kids: seq<seq<nat>>)
  {
    forall p, i, q, j ::
      0 <= p < |kids| && 0 <= i < |kids[p]| && 0 <= q < |kids| && 0 <= j < |kids[q]| && kids[p][i] == kids[q][j] ==>
        p == q && i == j
  }

  /** A child's subtree is part of the subtrees of the first `i` children when it is one of them. */
  lemma {:induction false} SubUpToHas(kids: seq<seq<nat>>, k: nat, i: nat, t: nat)
    requires Forward(kids) && k < |kids| && t < i <= |kids[k]|
    ensures Sub(kids, kids[k][t]) <= SubUpTo(kids, k, i)
    decreases i
  {
    if t < i - 1 {
      SubUpToHas(kids, k, i - 1, t);
    }
  }

  /** A node under the first `i` children of `k` lies in the subtree of one of them. */
  lemma {:induction false} SubUpToWhich(kids: seq<seq<nat>>, k: nat, i: nat, x: nat) returns (t: nat)
    requires Forward(kids) && k < |kids| && i <= |kids[k]| && x in SubUpTo(kids, k, i)
    ensures t < i && x in Sub(kids, kids[k][t])
    decreases i
  {
    if x in Sub(kids, kids[k][i - 1]) {
      t := i - 1;
    } else {
      t := SubUpToWhich(kids, k, i - 1, x);
    }
  }

  /** The children of a node of a subtree belong to the subtree. */
  lemma {:induction false} SubClosed(kids: seq<seq<nat>>, k: nat, p: nat, t: nat)
    requires Forward(kids) && k < |kids| && p in Sub(kids, k) && t < |kids[p]|
    ensures kids[p][t] in Sub(kids, k)
    decreases |kids| - k
  {
    if p == k {
      SubUpToHas(kids, k, |kids[k]|, t);
    } else {
      var u := SubUpToWhich(kids, k, |kids[k]|, p);
      SubClosed(kids, kids[k][u], p, t);
      SubUpToHas(kids, k, |kids[k]|, u);
    }
  }

  /** Every node of a subtree other than its top is the child of a node of the subtree. */
  lemma {:induction false} SubParent(kids: seq<seq<nat>>, a: nat, x: nat) returns (p: nat, t: nat)
    requires Forward(kids) && a < |kids| && x in Sub(kids, a) && x != a
    ensures p in Sub(kids, a) && t < |kids[p]| && kids[p][t] == x
    decreases |kids| - a
  {
    var u := SubUpToWhich(kids, a, |kids[a]|, x);
    var c := kids[a][u];
    if x == c {
      p, t := a, u;
    } else {
      p, t := SubParent(kids, c, x);
      SubUpToHas(kids, a, |kids[a]|, u);
    }
  }

  /** In a forest, two subtrees that share a node are nested. */
  lemma {:induction false} SubsMeet(kids: seq<seq<nat>>, a: nat, b: nat, x: nat)
    requires Forward(kids) && UniqueParents(kids) && a < |kids| && b < |kids|
    requires x in Sub(kids, a) && x in Sub(kids, b)
    ensures a in Sub(kids, b) || b in Sub(kids, a)
    decreases x
  {
    if x != a && x != b {
      var p, t := SubParent(kids, a, x);
      var q, u := SubParent(kids, b, x);
      assert p == q;
      SubsMeet(kids, a, b, p);
    }
  }

  /** In a forest, the subtrees of two different children of a node share no node. */
  lemma {:induction false} SiblingsDisjoint(kids: seq<seq<nat>>, k: nat, i: nat, j: nat, x: nat)
    requires Forward(kids) && UniqueParents(kids) && k < |kids| && i < j < |kids[k]|
    ensures x !in Sub(kids, kids[k][i]) || x !in Sub(kids, kids[k][j])
  {
    var a, b := kids[k][i], kids[k][j];
    if x in Sub(kids, a) && x in Sub(kids, b) {
      SubsMeet(kids, a, b, x);
      assert b in Sub(kids, a) && b != a;
      var p, t := SubParent(kids, a, b);
      assert false;
    }
  }

  /** The union of a sequence of maps, later maps winning on shared keys. */
  ghost function UnionOf<V>(ms: seq<map<nat, V>>): map<nat, V>
  {
    if |ms| == 0 then map[] else UnionOf(ms[..|ms| - 1]) + ms[|ms| - 1]
  }

  /** A key that no later map has keeps the value of the map it is in. */
  lemma {:induction false} UnionOfAt<V>(ms: seq<map<nat, V>>, t: nat, x: nat)
    requires t < |ms| && x in ms[t]
    requires forall u :: t < u < |ms| ==> x !in ms[u]
    ensures x in UnionOf(ms) && UnionOf(ms)[x] == ms[t][x]
    decreases |ms|
  {
    if t < |ms| - 1 {
      UnionOfAt(ms[..|ms| - 1], t, x);
    }
  }

  /** The levels of the first `i` children's subtrees, one map per child. */
  ghost function ChildLevels(kids: seq<seq<nat>>, k: nat, i: nat, d: int): (ms: seq<map<nat, int>>)
    requires Forward(kids) && k < |kids| && i <= |kids[k]|
  {
    seq(i, t requires 0 <= t < i => Levels(kids, kids[k][t], d))
  }

  /** The positions of the first `i` children's subtrees, one map per child. */
  ghost function ChildXs(kids: seq<seq<nat>>, k: nat, i: nat, start: real): (ms: seq<map<nat, real>>)
    requires Forward(kids) && k < |kids| && i <= |kids[k]|
  {
    seq(i, t requires 0 <= t < i => Xs(kids, kids[k][t], ChildStart(kids, k, t, start)))
  }

  lemma {:induction false} LevelsUpToUnion(kids: seq<seq<nat>>, k: nat, i: nat, d: int)
    requires Forward(kids) && k < |kids| && i <= |kids[k]|
    ensures LevelsUpTo(kids, k, i, d) == UnionOf(ChildLevels(kids, k, i, d))
  {
    if i > 0 {
      LevelsUpToUnion(kids, k, i - 1, d);
      assert ChildLevels(kids, k, i, d)[..i - 1] == ChildLevels(kids, k, i - 1, d);
    }
  }

  lemma {:induction false} XsUpToUnion(kids: seq<seq<nat>>, k: nat, i: nat, start: real)
    requires Forward(kids) && k < |kids| && i <= |kids[k]|
    ensures XsUpTo(kids, k, i, start) == UnionOf(ChildXs(kids, k, i, start))
  {
    if i > 0 {
      XsUpToUnion(kids, k, i - 1, start);
      assert ChildXs(kids, k, i, start)[..i - 1] == ChildXs(kids, k, i - 1, start);
    }
  }

  /** In a forest, the levels under the first `i` children give a node of child `t`'s subtree that child's level for it. */
  lemma LevelsUpToAt(kids: seq<seq<nat>>, k: nat, i: nat, d: int, t: nat, x: nat)
    requires Forward(kids) && UniqueParents(kids) && k < |kids| && t < i <= |kids[k]|
    requires x in Sub(kids, kids[k][t])
    ensures x in LevelsUpTo(kids, k, i, d) && LevelsUpTo(kids, k, i, d)[x] == Levels(kids, kids[k][t], d)[x]
  {
    var ms := ChildLevels(kids, k, i, d);
    LevelsUpToUnion(kids, k, i, d);
    forall u | t < u < i
      ensures x !in ms[u]
    {
      SiblingsDisjoint(kids, k, t, u, x);
    }
    UnionOfAt(ms, t, x);
  }

  /** In a forest, the positions under the first `i` children give a node of child `t`'s subtree that child's position for it. */
  lemma XsUpToAt(kids: seq<seq<nat>>, k: nat, i: nat, start: real, t: nat, x: nat)
    requires Forward(kids) && UniqueParents(kids) && k < |kids| && t < i <= |kids[k]|
    requires x in Sub(kids, kids[k][t])
    ensures x in XsUpTo(kids, k, i, start) &&
      XsUpTo(kids, k, i, start)[x] == Xs(kids, kids[k][t], ChildStart(kids, k, t, start))[x]
  {
    var ms := ChildXs(kids, k, i, start);
    XsUpToUnion(kids, k, i, start);
    forall u | t < u < i
      ensures x !in ms[u]
    {
      SiblingsDisjoint(kids, k, t, u, x);
    }
    UnionOfAt(ms, t, x);
  }

  /**
   * The first child and the `i`-th child keep the `x` of their own visit:
   * later children's subtrees hold only later nodes.
   */
  lemma {:induction false} XsUpToEnds(kids: seq<seq<nat>>, k: nat, i: nat, start: real)
    requires Forward(kids) && k < |kids| && 0 < i <= |kids[k]|
    ensures kids[k][0] in XsUpTo(kids, k, i, start) &&
      XsUpTo(kids, k, i, start)[kids[k][0]] == XOf(kids, kids[k][0], start)
    ensures kids[k][i - 1] in XsUpTo(kids, k, i, start) &&
      XsUpTo(kids, k, i, start)[kids[k][i - 1]] == XOf(kids, kids[k][i - 1], ChildStart(kids, k, i - 1, start))
    decreases i
  {
    if i > 1 {
      XsUpToEnds(kids, k, i - 1, start);
    }
  }

  /** In a forest, `calculateLayout(k, d)` puts every child one level below its parent. */
  lemma {:induction false} LevelsChild(kids: seq<seq<nat>>, k: nat, d: int, p: nat, t: nat)
    requires Forward(kids) && UniqueParents(kids) && k < |kids| && p in Sub(kids, k) && t < |kids[p]|
    ensures kids[p][t] in Sub(kids, k)
    ensures Levels(kids, k, d)[kids[p][t]] == Levels(kids, k, d)[p] + 1
    decreases |kids| - k
  {
    SubClosed(kids, k, p, t);
    var n := |kids[k]|;
    if p == k {
      LevelsUpToAt(kids, k, n, d + 1, t, kids[k][t]);
    } else {
      var u := SubUpToWhich(kids, k, n, p);
      var c := kids[k][u];
      SubClosed(kids, c, p, t);
      LevelsChild(kids, c, d + 1, p, t);
      LevelsUpToAt(kids, k, n, d + 1, u, p);
      LevelsUpToAt(kids, k, n, d + 1, u, kids[p][t]);
    }
  }

  /** In a forest, `positionLeaves` puts every parent at the midpoint of its first and last child. */
  lemma {:induction false} XsMidpoint(kids: seq<seq<nat>>, k: nat, start: real, p: nat)
    requires Forward(kids) && UniqueParents(kids) && k < |kids| && p in Sub(kids, k) && |kids[p]| > 0
    ensures kids[p][0] in Sub(kids, k) && kids[p][|kids[p]| - 1] in Sub(kids, k)
    ensures Xs(kids, k, start)[p] ==
      (Xs(kids, k, start)[kids[p][0]] + Xs(kids, k, start)[kids[p][|kids[p]| - 1]]) / 2.0
    decreases |kids| - k
  {
    var last := |kids[p]| - 1;
    SubClosed(kids, k, p, 0);
    SubClosed(kids, k, p, last);
    var n := |kids[k]|;
    if p != k {
      var u := SubUpToWhich(kids, k, n, p);
      var c := kids[k][u];
      SubClosed(kids, c, p, 0);
      SubClosed(kids, c, p, last);
      XsMidpoint(kids, c, ChildStart(kids, k, u, start), p);
      XsUpToAt(kids, k, n, start, u, p);
      XsUpToAt(kids, k, n, start, u, kids[p][0]);
      XsUpToAt(kids, k, n, start, u, kids[p][last]);
    } else {
      XsUpToEnds(kids, k, n, start);
    }
  }

  /**
   * In a forest, the leaves get the positions `LeafXs` lists, in
   * depth-first order: `start`, then one leaf step further for each leaf.
   */
  lemma {:induction false} XsAtLeaves(kids: seq<seq<nat>>, k: nat, start: real)
    requires Forward(kids) && UniqueParents(kids) && k < |kids|
    ensures |LeafXs(kids, k, start)| == |LeafIds(kids, k)|
    ensures forall j :: 0 <= j < |LeafIds(kids, k)| ==>
      Xs(kids, k, start)[LeafIds(kids, k)[j]] == LeafXs(kids, k, start)[j] == start + LeafStep * j as real
    decreases |kids| - k, 1
  {
    LeafXsSpaced(kids, k, start);
    if |kids[k]| > 0 {
      XsUpToAtLeaves(kids, k, |kids[k]|, start);
    }
  }

  lemma {:induction false} XsUpToAtLeaves(kids: seq<seq<nat>>, k: nat, i: nat, start: real)
    requires Forward(kids) && UniqueParents(kids) && k < |kids| && i <= |kids[k]|
    ensures forall j :: 0 <= j < |LeafIdsUpTo(kids, k, i)| ==>
      XsUpTo(kids, k, i, start)[LeafIdsUpTo(kids, k, i)[j]] == start + LeafStep * j as real
    decreases |kids| - k, 0, i
  {
    if i > 0 {
      var ids := LeafIdsUpTo(kids, k, i - 1);
      var c := kids[k][i - 1];
      var s := ChildStart(kids, k, i - 1, start);
      XsUpToAtLeaves(kids, k, i - 1, start);
      XsAtLeaves(kids, c, s);
      forall j | 0 <= j < |LeafIdsUpTo(kids, k, i)|
        ensures XsUpTo(kids, k, i, start)[LeafIdsUpTo(kids, k, i)[j]] == start + LeafStep * j as real
      {
        if j < |ids| {
          XsUpToKeeps(kids, k, i, start, ids[j]);
        } else {
          XsUpToLatest(kids, k, i, start, LeafIds(kids, c)[j - |ids|]);
        }
      }
    }
  }

  /** In a forest, child `i`'s positions leave the earlier children's subtrees alone. */
  lemma XsUpToKeeps(kids: seq<seq<nat>>, k: nat, i: nat, start: real, x: nat)
    requires Forward(kids) && UniqueParents(kids) && k < |kids| && 0 < i <= |kids[k]|
    requires x in SubUpTo(kids, k, i - 1)
    ensures x in XsUpTo(kids, k, i - 1, start) && x in XsUpTo(kids, k, i, start)
    ensures XsUpTo(kids, k, i, start)[x] == XsUpTo(kids, k, i - 1, start)[x]
  {
    var m := Xs(kids, kids[k][i - 1], ChildStart(kids, k, i - 1, start));
    assert x !in m by {
      var u := SubUpToWhich(kids, k, i - 1, x);
      SiblingsDisjoint(kids, k, u, i - 1, x);
    }
    assert XsUpTo(kids, k, i, start) == XsUpTo(kids, k, i - 1, start) + m;
  }

  /** Child `i`'s positions win on its own subtree. */
  lemma XsUpToLatest(kids: seq<seq<nat>>, k: nat, i: nat, start: real, x: nat)
    requires Forward(kids) && k < |kids| && 0 < i <= |kids[k]|
    requires x in Sub(kids, kids[k][i - 1])
    ensures x in XsUpTo(kids, k, i, start)
    ensures XsUpTo(kids, k, i, start)[x] == Xs(kids, kids[k][i - 1], ChildStart(kids, k, i - 1, start))[x]
  {
    assert XsUpTo(kids, k, i, start) ==
      XsUpTo(kids, k, i - 1, start) + Xs(kids, kids[k][i - 1], ChildStart(kids, k, i - 1, start));
  }

  // ---------------------------------------------------------------
  // update: the three id sets
  // ---------------------------------------------------------------

  /**
   * The scan in `update`: CALL ids go into created and active, RETURN ids
   * leave active and go into returned. The result is the `ReplayTree` fold.
   */
  method UpdateSets(index: nat, timeline: seq<TraceEvent>) returns (sets: TreeSets)
    requires index < |timeline|
    ensures sets == ReplayTree(timeline[..index + 1])
  {
    var activeFrames: set<Option<string>> := {};
    var returnedFrames: set<Option<string>> := {};
    var createdFrames: set<Option<string>> := {};
    var i := 0;
    while i <= index
      invariant 0 <= i <= index + 1
      invariant TreeSets(createdFrames, activeFrames, returnedFrames) == ReplayTree(timeline[..i])
    {
      var e := timeline[i];
      if e.kind == Call {
        createdFrames := createdFrames + {e.frameId};
        activeFrames := activeFrames + {e.frameId};
      } else if e.kind == Return {
        activeFrames := activeFrames - {e.frameId};
        returnedFrames := returnedFrames + {e.frameId};
      }
      assert timeline[..i + 1] == timeline[..i] + [e];
      i := i + 1;
    }
    sets := TreeSets(createdFrames, activeFrames, returnedFrames);
  }

  /** How `update` styles a node: active, returned, left as it was, or not reached yet. */
  datatype Look = ActiveLook | ReturnedLook | CreatedOnly | NotReached

  /** The style branch `update` takes for a node id: active first, then returned, then created. */
  function NodeLook(sets: TreeSets, id: Option<string>): (look: Look)
    ensures look == ActiveLook <==> id in sets.active
    ensures look == ReturnedLook <==> id !in sets.active && id in sets.returned
    ensures look == NotReached <==> id !in sets.active && id !in sets.returned && id !in sets.created
  {
    if id in sets.active then ActiveLook
    else if id in sets.returned then ReturnedLook
    else if id in sets.created then CreatedOnly
    else NotReached
  }

  /**
   * On a nested timeline with unique CALL ids, a node is styled active
   * exactly when its frame is open, not reached exactly when its frame has
   * not been called yet, and the branch for a frame created but neither
   * active nor returned is never taken.
   */
  lemma NodeLookOnNested(es: seq<TraceEvent>, id: Option<string>)
    requires Nested(es) && UniqueCalls(es)
    ensures NodeLook(ReplayTree(es), id) != CreatedOnly
    ensures NodeLook(ReplayTree(es), id) == ActiveLook <==> id in Elems(OpenIds(es))
    ensures NodeLook(ReplayTree(es), id) == NotReached <==> id !in Elems(CallIds(es))
  {
    ReplayTreeAgrees(es);
    ReplayTreeSets(es);
  }

  // ---------------------------------------------------------------
  // The visualizer object
  // ---------------------------------------------------------------

  class RecursionTreeVisualizer {
    var nodes: seq<TreeNode>
    var index: map<string, nat>
    var root: Option<nat>

    ghost function State(): Forest
      reads this
    {
      Forest(nodes, index, root)
    }

    constructor ()
      ensures State() == Forest([], map[], None)
    {
      nodes := [];
      index := map[];
      root := None;
    }

    /** `buildTreeStructure(timeline)`: the forest grows by one node per CALL event, as `Build` says. */
    method BuildTreeStructure(timeline: seq<TraceEvent>)
      requires IndexOk(State()) && CallsCarryFrames(timeline)
      modifies this
      ensures State() == Build(old(State()), timeline)
    {
      var i := 0;
      while i < |timeline|
        invariant 0 <= i <= |timeline|
        invariant CallsCarryFrames(timeline[..i])
        invariant State() == Build(old(State()), timeline[..i])
      {
        var event := timeline[i];
        assert timeline[..i + 1] == timeline[..i] + [event];
        assert CallsCarryFrames(timeline[..i + 1]);
        if event.kind == Call {
          var frame := event.data.frame;
          var node := TreeNode(frame.id, frame.name, frame.args, [], 0.0, 0, frame.depth, frame.parentId, 0);
          var k := |nodes|;
          nodes := nodes + [node];
          index := index[frame.id := k];
          if frame.parentId.Some? && frame.parentId.value != "" && frame.parentId.value in index {
            var p := index[frame.parentId.value];
            nodes := nodes[p := nodes[p].(children := nodes[p].children + [k])];
          } else {
            root := Some(k);
          }
        }
        i := i + 1;
      }
      assert timeline[..i] == timeline;
    }

    /**
     * `update(index, timeline)` without the DOM: the id sets of the prefix
     * up to `index`, and the style each mapped node gets from them.
     */
    method Update(index: nat, timeline: seq<TraceEvent>) returns (looks: map<string, Look>)
      requires index < |timeline|
      ensures looks.Keys == this.index.Keys
      ensures forall id :: id in looks ==> looks[id] == NodeLook(ReplayTree(timeline[..index + 1]), Some(id))
    {
      var sets := UpdateSets(index, timeline);
      looks := map[];
      var ids := this.index.Keys;
      while ids != {}
        invariant ids <= this.index.Keys
        invariant forall id :: id in looks <==> id in this.index && id !in ids
        invariant forall id :: id in looks ==> looks[id] == NodeLook(sets, Some(id))
        decreases |ids|
      {
        var id :| id in ids;
        looks := looks[id := NodeLook(sets, Some(id))];
        ids := ids - {id};
      }
    }

    /**
     * `calculateLayout(node, depth)`: every node the call reaches gets `y`
     * from its level in `Levels` (80 per level, plus 40) and its subtree's
     * `Width`; every other node, and every other field, is unchanged.
     */
    method CalculateLayout(k: nat, depth: int)
      requires k < |nodes| && Forward(Kids(nodes))
      modifies this`nodes
      ensures Laid(old(nodes), nodes, Levels(Kids(old(nodes)), k, depth))
      decreases |nodes| - k, 1
    {
      ghost var kids := Kids(nodes);
      nodes := nodes[k := nodes[k].(y := depth * LevelHeight + 40)];
      ghost var top := nodes;
      LaidKids(top, top, map[]);
      if |nodes[k].children| == 0 {
        nodes := nodes[k := nodes[k].(width := NodeSize)];
      } else {
        var totalWidth := LayoutChildren(k, depth);
        totalWidth := totalWidth - GapX;
        nodes := nodes[k := nodes[k].(width := totalWidth)];
      }
      LaidTop(old(nodes), top, nodes, k, depth);
    }

    /**
     * The `forEach` of `calculateLayout` over node `k`'s children: their
     * subtrees are laid out one level further down, as `LevelsUpTo` says,
     * and the running `totalWidth` adds each child's width and a gap.
     */
    method LayoutChildren(k: nat, depth: int) returns (totalWidth: int)
      requires k < |nodes| && Forward(Kids(nodes))
      modifies this`nodes
      ensures Laid(old(nodes), nodes, LevelsUpTo(Kids(old(nodes)), k, |old(nodes)[k].children|, depth + 1))
      ensures totalWidth == ChildWidths(Kids(old(nodes)), k, |old(nodes)[k].children|)
      decreases |nodes| - k, 0
    {
      var children := nodes[k].children;
      ghost var kids := Kids(nodes);
      LaidKids(nodes, nodes, map[]);
      totalWidth := 0;
      var i := 0;
      while i < |children|
        invariant 0 <= i <= |children|
        invariant Laid(old(nodes), nodes, LevelsUpTo(kids, k, i, depth + 1)) && Kids(nodes) == kids
        invariant totalWidth == ChildWidths(kids, k, i)
      {
        var child := children[i];
        ghost var before := nodes;
        CalculateLayout(child, depth + 1);
        LaidNext(old(nodes), before, nodes, k, i, depth + 1);
        totalWidth := totalWidth + nodes[child].width + GapX;
        i := i + 1;
      }
    }

    /**
     * The `positionLeaves` closure of `centerTree`, with its running
     * `currentX` passed in and handed back: every node the traversal
     * reaches gets its `x` from `Xs`, every other node and field is
     * unchanged, and the next free position moves on by one leaf step per
     * leaf of the subtree.
     */
    method PositionLeaves(k: nat, currentX: real) returns (nextX: real)
      requires k < |nodes| && Forward(Kids(nodes))
      modifies this`nodes
      ensures Placed(old(nodes), nodes, Xs(Kids(old(nodes)), k, currentX))
      ensures nextX == currentX + LeafStep * Leaves(Kids(old(nodes)), k) as real
      decreases |nodes| - k, 1
    {
      var children := nodes[k].children;
      ghost var kids := Kids(nodes);
      if |children| == 0 {
        nodes := nodes[k := nodes[k].(x := currentX)];
        nextX := currentX + LeafStep;
      } else {
        nextX := PositionChildren(k, currentX);
        XsUpToEnds(kids, k, |children|, currentX);
        var first := nodes[children[0]];
        var last := nodes[children[|children| - 1]];
        nodes := nodes[k := nodes[k].(x := (first.x + last.x) / 2.0)];
      }
    }

    /**
     * The `forEach` of `positionLeaves` over node `k`'s children: their
     * subtrees get the positions `XsUpTo` lists, and the next free position
     * moves on by one leaf step per leaf under them.
     */
    method PositionChildren(k: nat, currentX: real) returns (nextX: real)
      requires k < |nodes| && Forward(Kids(nodes))
      modifies this`nodes
      ensures Placed(old(nodes), nodes, XsUpTo(Kids(old(nodes)), k, |old(nodes)[k].children|, currentX))
      ensures nextX == ChildStart(Kids(old(nodes)), k, |old(nodes)[k].children|, currentX)
      decreases |nodes| - k, 0
    {
      var children := nodes[k].children;
      ghost var kids := Kids(nodes);
      PlacedKids(nodes, nodes, map[]);
      nextX := currentX;
      var i := 0;
      while i < |children|
        invariant 0 <= i <= |children|
        invariant Placed(old(nodes), nodes, XsUpTo(kids, k, i, currentX)) && Kids(nodes) == kids
        invariant nextX == ChildStart(kids, k, i, currentX)
      {
        var child := children[i];
        ghost var before := nodes;
        nextX := PositionLeaves(child, nextX);
        ChildStartNext(kids, k, i, currentX);
        PlacedNext(old(nodes), before, nodes, k, i, currentX);
        i := i + 1;
      }
    }

    /** `centerTree()`: nothing without a root; otherwise the traversal from the root with the first leaf at x = 40. */
    method CenterTree()
      requires root.Some? ==> root.value < |nodes| && Forward(Kids(nodes))
      modifies this`nodes
      ensures root.None? ==> nodes == old(nodes)
      ensures root.Some? ==> Placed(old(nodes), nodes, Xs(Kids(old(nodes)), root.value, 40.0))
    {
      if root.None? {
        return;
      }
      var currentX := 40.0;
      currentX := PositionLeaves(root.value, currentX);
    }

    /**
     * `reset(timeline)` without the rendering: the forest is rebuilt from the
     * timeline alone; when it has a root, the root's subtree is laid out
     * from level 0 and centred with its first leaf at x = 40, which draws
     * it as `Drawing` describes.
     */
    method Reset(timeline: seq<TraceEvent>)
      requires CallsCarryFrames(timeline) && NoSelfParent(timeline)
      modifies this
      ensures var b := Build(Forest([], map[], None), timeline);
        Kids(nodes) == Kids(b.nodes) && index == b.index && root == b.root
      ensures Forward(Kids(nodes)) && UniqueParents(Kids(nodes))
      ensures root.None? ==> nodes == Build(Forest([], map[], None), timeline).nodes
      ensures root.Some? ==>
        root.value < |nodes| &&
        Drawn(Build(Forest([], map[], None), timeline).nodes, nodes,
          Levels(Kids(nodes), root.value, 0), Xs(Kids(nodes), root.value, 40.0))
      ensures root.Some? ==> root.value < |nodes| && Drawing(nodes, root.value)
    {
      nodes := [];
      index := map[];
      root := None;
      BuildTreeStructure(timeline);
      BuildForward(Forest([], map[], None), timeline);
      BuildUniqueParents(Forest([], map[], None), timeline);
      ghost var built := nodes;
      if root.Some? {
        ghost var kids := Kids(nodes);
        var r := root.value;
        CalculateLayout(r, 0);
        LaidKids(built, nodes, Levels(kids, r, 0));
        ghost var laid := nodes;
        CenterTree();
        PlacedKids(laid, nodes, Xs(kids, r, 40.0));
        LaidThenPlaced(built, laid, nodes, Levels(kids, r, 0), Xs(kids, r, 40.0));
        DrawnShape(built, nodes, r);
      }
    }
  }

  /** Node `j` of `a` once `calculateLayout` has written `levels`: a reached node gets its `y` and its `Width`. */
  ghost function LaidNode(a: seq<TreeNode>, levels: map<nat, int>, j: nat): TreeNode
    requires Forward(Kids(a)) && j < |a|
  {
    if j in levels then a[j].(y := levels[j] * LevelHeight + 40, width := Width(Kids(a), j)) else a[j]
  }

  /** `b` is `a` with the nodes of `levels` laid out and everything else unchanged. */
  ghost predicate Laid(a: seq<TreeNode>, b: seq<TreeNode>, levels: map<nat, int>)
    requires Forward(Kids(a))
  {
    |b| == |a| && forall j :: 0 <= j < |a| ==> b[j] == LaidNode(a, levels, j)
  }

  /** A node with its `x` taken from `xs` when `xs` reaches node `j`. */
  function Moved(node: TreeNode, xs: map<nat, real>, j: nat): TreeNode
  {
    if j in xs then node.(x := xs[j]) else node
  }

  /** `b` is `a` with the nodes of `xs` moved to their `x` and everything else unchanged. */
  ghost predicate Placed(a: seq<TreeNode>, b: seq<TreeNode>, xs: map<nat, real>)
  {
    |b| == |a| && forall j :: 0 <= j < |a| ==> b[j] == Moved(a[j], xs, j)
  }

  /** `b` is `a` laid out with `levels` and then moved with `xs`. */
  ghost predicate Drawn(a: seq<TreeNode>, b: seq<TreeNode>, levels: map<nat, int>, xs: map<nat, real>)
    requires Forward(Kids(a))
  {
    |b| == |a| && forall j :: 0 <= j < |a| ==> b[j] == Moved(LaidNode(a, levels, j), xs, j)
  }

  /**
   * How the tree under root `r` is drawn: the root on the first level, each
   * child one level below its parent, each node as wide as its subtree,
   * each parent above the midpoint of its first and last child, and the
   * leaves left to right in depth-first order from x = 40, one leaf step
   * apart.
   */
  ghost predicate Drawing(nodes: seq<TreeNode>, r: nat)
    requires Forward(Kids(nodes)) && r < |nodes|
  {
    var kids := Kids(nodes);
    nodes[r].y == 40 &&
    (forall p, t :: p in Sub(kids, r) && 0 <= t < |kids[p]| ==> nodes[kids[p][t]].y == nodes[p].y + LevelHeight) &&
    (forall p :: p in Sub(kids, r) ==> nodes[p].width == Width(kids, p)) &&
    (forall p :: p in Sub(kids, r) && |kids[p]| > 0 ==>
      nodes[p].x == (nodes[kids[p][0]].x + nodes[kids[p][|kids[p]| - 1]].x) / 2.0) &&
    (forall j :: 0 <= j < |LeafIds(kids, r)| ==> nodes[LeafIds(kids, r)[j]].x == 40.0 + LeafStep * j as real)
  }

  lemma LaidKids(a: seq<TreeNode>, b: seq<TreeNode>, levels: map<nat, int>)
    requires Forward(Kids(a)) && Laid(a, b, levels)
    ensures Kids(b) == Kids(a)
  {
  }

  lemma PlacedKids(a: seq<TreeNode>, b: seq<TreeNode>, xs: map<nat, real>)
    requires Placed(a, b, xs)
    ensures Kids(b) == Kids(a)
  {
  }

  /** Laying out `m1` and then `m2` lays out their union, the later levels winning. */
  lemma LaidTrans(a: seq<TreeNode>, b: seq<TreeNode>, c: seq<TreeNode>, m1: map<nat, int>, m2: map<nat, int>)
    requires Forward(Kids(a)) && Laid(a, b, m1) && Kids(b) == Kids(a) && Laid(b, c, m2)
    ensures Laid(a, c, m1 + m2)
  {
  }

  /** Moving with `m1` and then `m2` moves with their union, the later positions winning. */
  lemma PlacedTrans(a: seq<TreeNode>, b: seq<TreeNode>, c: seq<TreeNode>, m1: map<nat, real>, m2: map<nat, real>)
    requires Placed(a, b, m1) && Placed(b, c, m2)
    ensures Placed(a, c, m1 + m2)
  {
  }

  /** Laying out child `i`'s subtree after the children before it lays out the children up to `i + 1`. */
  lemma LaidNext(a: seq<TreeNode>, b: seq<TreeNode>, c: seq<TreeNode>, k: nat, i: nat, d: int)
    requires Forward(Kids(a)) && k < |a| && i < |Kids(a)[k]|
    requires Laid(a, b, LevelsUpTo(Kids(a), k, i, d)) && Kids(b) == Kids(a)
    requires Laid(b, c, Levels(Kids(a), Kids(a)[k][i], d))
    ensures Laid(a, c, LevelsUpTo(Kids(a), k, i + 1, d)) && Kids(c) == Kids(a)
  {
    var kids := Kids(a);
    LaidTrans(a, b, c, LevelsUpTo(kids, k, i, d), Levels(kids, kids[k][i], d));
    LaidKids(b, c, Levels(kids, kids[k][i], d));
    assert LevelsUpTo(kids, k, i + 1, d) == LevelsUpTo(kids, k, i, d) + Levels(kids, kids[k][i], d);
  }

  /** Placing child `i`'s subtree after the children before it places the children up to `i + 1`. */
  lemma PlacedNext(a: seq<TreeNode>, b: seq<TreeNode>, c: seq<TreeNode>, k: nat, i: nat, start: real)
    requires Forward(Kids(a)) && k < |a| && i < |Kids(a)[k]|
    requires Placed(a, b, XsUpTo(Kids(a), k, i, start)) && Kids(b) == Kids(a)
    requires Placed(b, c, Xs(Kids(a), Kids(a)[k][i], ChildStart(Kids(a), k, i, start)))
    ensures Placed(a, c, XsUpTo(Kids(a), k, i + 1, start)) && Kids(c) == Kids(a)
  {
    var kids := Kids(a);
    var m := Xs(kids, kids[k][i], ChildStart(kids, k, i, start));
    PlacedTrans(a, b, c, XsUpTo(kids, k, i, start), m);
    PlacedKids(b, c, m);
    assert XsUpTo(kids, k, i + 1, start) == XsUpTo(kids, k, i, start) + m;
  }

  /** Node `k`'s own level and width, written around its children's, complete `Levels(k)`. */
  lemma LaidTop(a: seq<TreeNode>, top: seq<TreeNode>, b: seq<TreeNode>, k: nat, d: int)
    requires Forward(Kids(a)) && k < |a|
    requires top == a[k := a[k].(y := d * LevelHeight + 40)]
    requires Kids(top) == Kids(a)
    requires |b| == |a| && b[k] == top[k].(width := Width(Kids(a), k))
    requires forall j :: 0 <= j < |a| && j != k ==> b[j] == LaidNode(top, LevelsUpTo(Kids(a), k, |a[k].children|, d + 1), j)
    ensures Laid(a, b, Levels(Kids(a), k, d))
  {
  }

  /** Laying out and then moving is `Drawn`. */
  lemma LaidThenPlaced(a: seq<TreeNode>, b: seq<TreeNode>, c: seq<TreeNode>, levels: map<nat, int>, xs: map<nat, real>)
    requires Forward(Kids(a)) && Laid(a, b, levels) && Placed(b, c, xs)
    ensures Drawn(a, c, levels, xs)
  {
  }

  lemma DrawnKids(a: seq<TreeNode>, b: seq<TreeNode>, levels: map<nat, int>, xs: map<nat, real>)
    requires Forward(Kids(a)) && Drawn(a, b, levels, xs)
    ensures Kids(b) == Kids(a)
  {
    assert forall j :: 0 <= j < |a| ==> b[j].children == a[j].children;
  }

  /** In a forest drawn from root `r`, every child is one level below its parent. */
  lemma DrawnLevels(a: seq<TreeNode>, b: seq<TreeNode>, r: nat)
    requires Forward(Kids(a)) && UniqueParents(Kids(a)) && r < |a|
    requires Drawn(a, b, Levels(Kids(a), r, 0), Xs(Kids(a), r, 40.0))
    ensures b[r].y == 40
    ensures forall p, t :: p in Sub(Kids(a), r) && 0 <= t < |Kids(a)[p]| ==>
      b[Kids(a)[p][t]].y == b[p].y + LevelHeight
  {
    var kids := Kids(a);
    forall p, t | p in Sub(kids, r) && 0 <= t < |kids[p]|
      ensures b[kids[p][t]].y == b[p].y + LevelHeight
    {
      LevelsChild(kids, r, 0, p, t);
    }
  }

  /** In a forest drawn from root `r`, every parent is above the midpoint of its first and last child. */
  lemma DrawnMidpoints(a: seq<TreeNode>, b: seq<TreeNode>, r: nat)
    requires Forward(Kids(a)) && UniqueParents(Kids(a)) && r < |a|
    requires Drawn(a, b, Levels(Kids(a), r, 0), Xs(Kids(a), r, 40.0))
    ensures forall p :: p in Sub(Kids(a), r) && |Kids(a)[p]| > 0 ==>
      b[p].x == (b[Kids(a)[p][0]].x + b[Kids(a)[p][|Kids(a)[p]| - 1]].x) / 2.0
  {
    var kids := Kids(a);
    forall p | p in Sub(kids, r) && |kids[p]| > 0
      ensures b[p].x == (b[kids[p][0]].x + b[kids[p][|kids[p]| - 1]].x) / 2.0
    {
      XsMidpoint(kids, r, 40.0, p);
    }
  }

  /** In a forest drawn from root `r`, the leaves in depth-first order are at 40, 90, 140, … */
  lemma DrawnLeaves(a: seq<TreeNode>, b: seq<TreeNode>, r: nat)
    requires Forward(Kids(a)) && UniqueParents(Kids(a)) && r < |a|
    requires Drawn(a, b, Levels(Kids(a), r, 0), Xs(Kids(a), r, 40.0))
    ensures forall j :: 0 <= j < |LeafIds(Kids(a), r)| ==> b[LeafIds(Kids(a), r)[j]].x == 40.0 + LeafStep * j as real
  {
    XsAtLeaves(Kids(a), r, 40.0);
  }

  /** In a forest drawn from root `r` with the first leaf at 40, the drawing has the shape `Drawing` describes. */
  lemma DrawnShape(a: seq<TreeNode>, b: seq<TreeNode>, r: nat)
    requires Forward(Kids(a)) && UniqueParents(Kids(a)) && r < |a|
    requires Drawn(a, b, Levels(Kids(a), r, 0), Xs(Kids(a), r, 40.0))
    ensures Kids(b) == Kids(a) && Drawing(b, r)
  {
    DrawnKids(a, b, Levels(Kids(a), r, 0), Xs(Kids(a), r, 40.0));
    DrawnLevels(a, b, r);
    DrawnMidpoints(a, b, r);
    DrawnLeaves(a, b, r);
  }
}
