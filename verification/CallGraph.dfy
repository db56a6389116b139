/** The folded call graph of `perf_reports.py`: stacks counted in a trie of mutable nodes, the hottest connected part
    of it, and the flat profile. */
module CallGraph {
  import opened Orders

  /** A stack frame: `(symbol, dso)`. */
  type Frame = (string, string)

  /** A call path from below the root, root-most frame first. */
  type Path = seq<Frame>

  const ROOT_FRAME: Frame := ("(all)", "")

  /** A node of the trie: the frame some call path ends in, with how many stacks pass and end there. */
  class CallNode {
    const symbol: string
    const dso: string
    var selfSamples: nat
    var totalSamples: nat
    var children: map<Frame, CallNode>
    ghost const parent: CallNode?
    ghost const path: Path

    constructor (frame: Frame, ghost parent: CallNode?, ghost path: Path)
      ensures this.symbol == frame.0 && this.dso == frame.1 && this.parent == parent && this.path == path
      ensures selfSamples == 0 && totalSamples == 0 && children == map[]
    {
      this.symbol, this.dso, this.parent, this.path := frame.0, frame.1, parent, path;
      selfSamples, totalSamples, children := 0, 0, map[];
    }

    function Frame(): Frame { (symbol, dso) }
  }

  ghost predicate HangsUnder(n: CallNode, parent: CallNode)
    reads parent`children
  {
    n.Frame() in parent.children && parent.children[n.Frame()] == n && n.path == parent.path + [n.Frame()]
  }

  /** Every node but the root hangs under a parent in the tree. */
  ghost predicate Hung(n: CallNode, root: CallNode, nodes: set<CallNode>)
    reads nodes`children
  {
    n != root ==> n.parent != null && n.parent in nodes && HangsUnder(n, n.parent)
  }

  /** A node's children are tree nodes hanging under it, each as its own frame. */
  ghost predicate Fruitful(n: CallNode, root: CallNode, nodes: set<CallNode>)
    reads n`children
  {
    forall f :: f in n.children ==>
      n.children[f] in nodes && n.children[f] != root && n.children[f].parent == n && n.children[f].Frame() == f
  }

  /** `nodes` are the nodes of the tree under `root`. */
  ghost predicate IsTree(root: CallNode, nodes: set<CallNode>)
    reads nodes`children
  {
    && root in nodes && root.parent == null && root.path == [] && root.Frame() == ROOT_FRAME
    && (forall n {:trigger Hung(n, root, nodes)} :: n in nodes ==> Hung(n, root, nodes))
    && (forall n {:trigger Fruitful(n, root, nodes)} :: n in nodes ==> Fruitful(n, root, nodes))
  }

  // ---- what the counters mean ----

  /** How many stacks start with path `p`. */
  ghost function TotalOf(recorded: seq<Path>, p: Path): nat {
    if recorded == [] then 0
    else TotalOf(recorded[..|recorded| - 1], p) + (if p <= recorded[|recorded| - 1] then 1 else 0)
  }

  /** How many stacks are exactly path `p`. */
  ghost function SelfOf(recorded: seq<Path>, p: Path): nat {
    if recorded == [] then 0
    else SelfOf(recorded[..|recorded| - 1], p) + (if p == recorded[|recorded| - 1] then 1 else 0)
  }

  ghost predicate HasNode(nodes: set<CallNode>, p: Path) {
    exists n :: n in nodes && n.path == p
  }

  ghost predicate SelfsCounted(nodes: set<CallNode>, recorded: seq<Path>)
    reads nodes`selfSamples
  {
    forall n :: n in nodes ==> n.selfSamples == SelfOf(recorded, n.path)
  }

  ghost predicate TotalsCounted(nodes: set<CallNode>, recorded: seq<Path>)
    reads nodes`totalSamples
  {
    forall n :: n in nodes ==> n.totalSamples == TotalOf(recorded, n.path)
  }

  /** 1 when the walk down a stack has passed through path `p`. */
  ghost function OnWalk(p: Path, walked: Path): nat {
    if p <= walked then 1 else 0
  }

  ghost predicate TotalAlong(n: CallNode, recorded: seq<Path>, walked: Path)
    reads n`totalSamples
  {
    n.totalSamples == TotalOf(recorded, n.path) + OnWalk(n.path, walked)
  }

  /** The totals while one more stack is walked: the path walked so far already counts. */
  ghost predicate TotalsAlong(nodes: set<CallNode>, recorded: seq<Path>, walked: Path)
    reads nodes`totalSamples
  {
    forall n :: n in nodes ==> TotalAlong(n, recorded, walked)
  }

  /** Every stack's path has a node. */
  ghost predicate HasAll(nodes: set<CallNode>, recorded: seq<Path>) {
    forall i :: 0 <= i < |recorded| ==> HasNode(nodes, recorded[i])
  }

  /** Every node's path is the root's, on the walk, or taken by some stack. */
  ghost predicate AllUsed(nodes: set<CallNode>, recorded: seq<Path>, walked: Path) {
    forall n :: n in nodes ==> n.path <= walked || TotalOf(recorded, n.path) > 0
  }

  /** Each node's total is the number of stacks through it and its self count the number ending in it; there are nodes
      for exactly the paths some stack takes, and the root. */
  ghost predicate Counted(nodes: set<CallNode>, recorded: seq<Path>)
    reads nodes`totalSamples, nodes`selfSamples
  {
    SelfsCounted(nodes, recorded) && TotalsCounted(nodes, recorded) && HasAll(nodes, recorded) &&
    AllUsed(nodes, recorded, [])
  }

  lemma PrefixSnoc(p: Path, walked: Path, f: Frame)
    ensures p <= walked + [f] <==> p <= walked || p == walked + [f]
  {
    if p <= walked + [f] && p != walked + [f] {
      assert p == (walked + [f])[..|p|];
    }
  }

  lemma {:induction false} NoStackThrough(recorded: seq<Path>, p: Path)
    requires forall i :: 0 <= i < |recorded| ==> !(p <= recorded[i])
    ensures TotalOf(recorded, p) == 0 && SelfOf(recorded, p) == 0
  {
    if recorded != [] { NoStackThrough(recorded[..|recorded| - 1], p); }
  }

  /** Two nodes of a tree on the same path are one node. */
  lemma {:induction false} PathDeterminesNode(root: CallNode, nodes: set<CallNode>, m: CallNode, n: CallNode)
    requires IsTree(root, nodes) && m in nodes && n in nodes && m.path == n.path
    ensures m == n
    decreases |m.path|
  {
    assert Hung(m, root, nodes) && Hung(n, root, nodes);
    if m != root && n != root {
      var p, q := m.parent.path, n.parent.path;
      assert p == m.path[..|p|] && q == n.path[..|q|];
      PathDeterminesNode(root, nodes, m.parent, n.parent);
      assert m.Frame() == m.path[|p|] && n.Frame() == n.path[|q|];
    } else {
      assert m == root <==> m.path == [];
      assert n == root <==> n.path == [];
    }
  }

  /** Every prefix of a node's path has a node. */
  lemma {:induction false} PrefixHasNode(root: CallNode, nodes: set<CallNode>, n: CallNode, p: Path)
    requires IsTree(root, nodes) && n in nodes && p <= n.path
    ensures HasNode(nodes, p)
    decreases |n.path|
  {
    if p != n.path {
      assert Hung(n, root, nodes);
      PrefixSnoc(p, n.parent.path, n.Frame());
      PrefixHasNode(root, nodes, n.parent, p);
    }
  }

  lemma ChildrenAreComplete(root: CallNode, nodes: set<CallNode>, node: CallNode, n: CallNode, frame: Frame)
    requires IsTree(root, nodes) && node in nodes && n in nodes && n.path == node.path + [frame]
    ensures frame in node.children
  {
    assert Hung(n, root, nodes);
    var p := n.parent.path;
    assert p == n.path[..|p|] && n.Frame() == n.path[|p|];
    assert p == node.path;
    PathDeterminesNode(root, nodes, n.parent, node);
  }

  /** `child`: the node under `node` for `frame`, created when missing. */
  method Child(node: CallNode, frame: Frame, ghost root: CallNode, ghost nodes: set<CallNode>)
    returns (child: CallNode, ghost grown: set<CallNode>)
    requires IsTree(root, nodes) && node in nodes
    modifies node`children
    ensures IsTree(root, grown) && child in grown && child.parent == node && child.path == node.path + [frame]
    ensures child in nodes ==> grown == nodes
    ensures child !in nodes ==> fresh(child) && grown == nodes + {child} && child.selfSamples == child.totalSamples == 0
    ensures child !in nodes ==> frame !in old(node.children)
  {
    assert Fruitful(node, root, nodes);
    if frame in node.children {
      child, grown := node.children[frame], nodes;
      assert Hung(child, root, nodes);
    } else {
      child := new CallNode(frame, node, node.path + [frame]);
      node.children := node.children[frame := child];
      grown := nodes + {child};
      forall n | n in grown ensures Hung(n, root, grown) && Fruitful(n, root, grown) {
        assert n in nodes ==> old(Hung(n, root, nodes)) && old(Fruitful(n, root, nodes));
      }
    }
  }

  lemma NewPathUncounted(root: CallNode, nodes: set<CallNode>, recorded: seq<Path>, p: Path)
    requires IsTree(root, nodes) && HasAll(nodes, recorded) && !HasNode(nodes, p)
    ensures TotalOf(recorded, p) == 0 && SelfOf(recorded, p) == 0
  {
    forall i | 0 <= i < |recorded| ensures !(p <= recorded[i]) {
      assert HasNode(nodes, recorded[i]);
      var n :| n in nodes && n.path == recorded[i];
      if p <= recorded[i] { PrefixHasNode(root, nodes, n, p); }
    }
    NoStackThrough(recorded, p);
  }

  lemma NextIsNew(root: CallNode, nodes: set<CallNode>, recorded: seq<Path>, node: CallNode, frame: Frame)
    requires IsTree(root, nodes) && HasAll(nodes, recorded) && node in nodes && frame !in node.children
    ensures TotalOf(recorded, node.path + [frame]) == 0 && SelfOf(recorded, node.path + [frame]) == 0
  {
    assert !HasNode(nodes, node.path + [frame]) by {
      forall n | n in nodes ensures n.path != node.path + [frame] {
        if n.path == node.path + [frame] { ChildrenAreComplete(root, nodes, node, n, frame); }
      }
    }
    NewPathUncounted(root, nodes, recorded, node.path + [frame]);
  }

  lemma GrownHasAll(nodes: set<CallNode>, grown: set<CallNode>, recorded: seq<Path>)
    requires HasAll(nodes, recorded) && nodes <= grown
    ensures HasAll(grown, recorded)
  {
    forall i | 0 <= i < |recorded| ensures HasNode(grown, recorded[i]) { assert HasNode(nodes, recorded[i]); }
  }

  /** No other node sits on `node`'s path. */
  ghost predicate Alone(nodes: set<CallNode>, node: CallNode) {
    forall n :: n in nodes && n != node ==> n.path != node.path
  }

  lemma NodesStandAlone(root: CallNode, nodes: set<CallNode>, node: CallNode)
    requires IsTree(root, nodes) && node in nodes
    ensures Alone(nodes, node)
  {
    forall n | n in nodes && n != node ensures n.path != node.path {
      if n.path == node.path { PathDeterminesNode(root, nodes, n, node); }
    }
  }

  /** Count one more sample through `child`, one frame below the walk so far. */
  method CountThrough(child: CallNode, ghost nodes: set<CallNode>, ghost before: seq<Path>, ghost walked: Path,
                      ghost frame: Frame)
    requires child in nodes && Alone(nodes, child) && child.path == walked + [frame]
    requires TotalsAlong(nodes, before, walked)
    modifies child`totalSamples
    ensures TotalsAlong(nodes, before, child.path)
  {
    PrefixSnoc(child.path, walked, frame);
    assert TotalAlong(child, before, walked);
    assert !(child.path <= walked);
    child.totalSamples := child.totalSamples + 1;
    forall n | n in nodes ensures TotalAlong(n, before, child.path) {
      assert old(TotalAlong(n, before, walked));
      PrefixSnoc(n.path, walked, frame);
    }
  }

  lemma NewNodeUncounted(nodes: set<CallNode>, grown: set<CallNode>, child: CallNode, before: seq<Path>, walked: Path)
    requires TotalsAlong(nodes, before, walked) && SelfsCounted(nodes, before) && AllUsed(nodes, before, walked)
    requires grown == nodes + {child} && child.selfSamples == child.totalSamples == 0 && !(child.path <= walked)
    requires TotalOf(before, child.path) == 0 && SelfOf(before, child.path) == 0
    ensures TotalsAlong(grown, before, walked) && SelfsCounted(grown, before)
  {
    assert TotalAlong(child, before, walked);
  }

  /** The child to walk to, and the counters as they were. */
  method Descend(node: CallNode, frame: Frame, ghost root: CallNode, ghost nodes: set<CallNode>,
                 ghost before: seq<Path>)
    returns (child: CallNode, ghost grown: set<CallNode>)
    requires IsTree(root, nodes) && node in nodes && HasAll(nodes, before)
    requires SelfsCounted(nodes, before) && TotalsAlong(nodes, before, node.path) && AllUsed(nodes, before, node.path)
    modifies node`children
    ensures IsTree(root, grown) && child in grown && child.path == node.path + [frame]
    ensures nodes <= grown && fresh(grown - nodes) && HasAll(grown, before)
    ensures SelfsCounted(grown, before) && TotalsAlong(grown, before, node.path) && AllUsed(grown, before, child.path)
  {
    if frame !in node.children { NextIsNew(root, nodes, before, node, frame); }
    child, grown := Child(node, frame, root, nodes);
    assert child.path == node.path + [frame];
    GrownHasAll(nodes, grown, before);
    if child !in nodes { NewNodeUncounted(nodes, grown, child, before, node.path); }
    forall n | n in grown ensures n.path <= child.path || TotalOf(before, n.path) > 0 {
      PrefixSnoc(n.path, node.path, frame);
    }
  }

  /** Count one sample at the next frame of the walk. */
  method StepDown(node: CallNode, frame: Frame, ghost root: CallNode, ghost nodes: set<CallNode>,
                  ghost before: seq<Path>)
    returns (child: CallNode, ghost grown: set<CallNode>)
    requires IsTree(root, nodes) && node in nodes && HasAll(nodes, before)
    requires SelfsCounted(nodes, before) && TotalsAlong(nodes, before, node.path) && AllUsed(nodes, before, node.path)
    modifies nodes`children, nodes`totalSamples
    ensures IsTree(root, grown) && child in grown && child.path == node.path + [frame]
    ensures nodes <= grown && fresh(grown - nodes) && HasAll(grown, before)
    ensures SelfsCounted(grown, before) && TotalsAlong(grown, before, child.path) && AllUsed(grown, before, child.path)
  {
    child, grown := Descend(node, frame, root, nodes, before);
    NodesStandAlone(root, grown, child);
    CountThrough(child, grown, before, node.path, frame);
  }

  lemma WalkDone(nodes: set<CallNode>, before: seq<Path>, stack: Path, node: CallNode)
    requires HasAll(nodes, before) && TotalsAlong(nodes, before, stack) && AllUsed(nodes, before, stack)
    requires node in nodes && node.path == stack
    ensures TotalsCounted(nodes, before + [stack]) && HasAll(nodes, before + [stack])
    ensures AllUsed(nodes, before + [stack], [])
  {
    var all := before + [stack];
    assert all[..|all| - 1] == before;
    forall i | 0 <= i < |all| ensures HasNode(nodes, all[i]) {
      if i < |before| { assert HasNode(nodes, before[i]); }
    }
  }

  method CountAtRoot(root: CallNode, ghost nodes: set<CallNode>, ghost before: seq<Path>)
    requires root in nodes && Alone(nodes, root) && root.path == [] && TotalsCounted(nodes, before)
    modifies root`totalSamples
    ensures TotalsAlong(nodes, before, [])
  {
    root.totalSamples := root.totalSamples + 1;
    forall n | n in nodes ensures TotalAlong(n, before, []) { assert n != root ==> n.path != []; }
  }

  /** Walk one stack down from the root, counting a sample through every node on the way. */
  method Walk(root: CallNode, stack: Path, ghost nodes: set<CallNode>, ghost before: seq<Path>)
    returns (node: CallNode, ghost grown: set<CallNode>)
    requires IsTree(root, nodes) && HasAll(nodes, before)
    requires SelfsCounted(nodes, before) && TotalsAlong(nodes, before, []) && AllUsed(nodes, before, [])
    modifies nodes`children, nodes`totalSamples
    ensures IsTree(root, grown) && node in grown && node.path == stack && nodes <= grown && fresh(grown - nodes)
    ensures HasAll(grown, before) && SelfsCounted(grown, before)
    ensures TotalsAlong(grown, before, stack) && AllUsed(grown, before, stack)
  {
    grown := nodes;
    node := root;
    assert stack[..0] == [];
    for k := 0 to |stack|
      invariant IsTree(root, grown) && node in grown && nodes <= grown && fresh(grown - nodes) && HasAll(grown, before)
      invariant node.path == stack[..k]
      invariant SelfsCounted(grown, before) && TotalsAlong(grown, before, node.path)
      invariant AllUsed(grown, before, node.path)
    {
      node, grown := StepDown(node, stack[k], root, grown, before);
      assert stack[..k + 1] == stack[..k] + [stack[k]];
    }
    assert stack[..|stack|] == stack;
  }

  /** Fold one stack into the tree. */
  method AddStack(root: CallNode, stack: Path, ghost nodes: set<CallNode>, ghost before: seq<Path>)
    returns (ghost grown: set<CallNode>)
    requires IsTree(root, nodes) && Counted(nodes, before)
    modifies nodes`children, nodes`totalSamples, nodes`selfSamples
    ensures IsTree(root, grown) && nodes <= grown && fresh(grown - nodes)
    ensures Counted(grown, before + [stack])
  {
    NodesStandAlone(root, nodes, root);
    CountAtRoot(root, nodes, before);
    var node;
    node, grown := Walk(root, stack, nodes, before);
    WalkDone(grown, before, stack, node);
    NodesStandAlone(root, grown, node);
    AddSelf(node, stack, grown, before);
  }

  method AddSelf(node: CallNode, stack: Path, ghost nodes: set<CallNode>, ghost before: seq<Path>)
    requires node in nodes && node.path == stack && SelfsCounted(nodes, before)
    requires Alone(nodes, node)
    modifies node`selfSamples
    ensures SelfsCounted(nodes, before + [stack])
  {
    node.selfSamples := node.selfSamples + 1;
    assert (before + [stack])[..|before|] == before;
  }

  method EmptyTree() returns (root: CallNode, ghost nodes: set<CallNode>)
    ensures fresh(nodes) && IsTree(root, nodes) && Counted(nodes, [])
  {
    root := new CallNode(ROOT_FRAME, null, []);
    nodes := {root};
  }

  /** `fold`: the counted tree and the number of samples. */
  method Fold(recorded: seq<Path>) returns (root: CallNode, count: nat, ghost nodes: set<CallNode>)
    ensures fresh(nodes) && IsTree(root, nodes) && Counted(nodes, recorded) && count == |recorded|
  {
    root, nodes := EmptyTree();
    assert recorded[..0] == [];
    for i := 0 to |recorded|
      invariant fresh(nodes) && IsTree(root, nodes) && Counted(nodes, recorded[..i])
    {
      assert recorded[..i + 1] == recorded[..i] + [recorded[i]];
      nodes := AddStack(root, recorded[i], nodes, recorded[..i]);
    }
    assert recorded[..|recorded|] == recorded;
    count := |recorded|;
  }

  // ---- what the counts mean together ----

  lemma {:induction false} ThroughAPrefix(recorded: seq<Path>, p: Path, q: Path)
    requires p <= q
    ensures SelfOf(recorded, q) <= TotalOf(recorded, q) <= TotalOf(recorded, p) <= |recorded|
  {
    if recorded != [] {
      ThroughAPrefix(recorded[..|recorded| - 1], p, q);
      var last := recorded[|recorded| - 1];
      if q <= last { assert p == last[..|p|]; }
    }
  }

  /** A node is never hotter than its parent. */
  lemma ParentIsHotter(root: CallNode, nodes: set<CallNode>, recorded: seq<Path>, n: CallNode)
    requires IsTree(root, nodes) && Counted(nodes, recorded) && n in nodes && n != root
    ensures n.parent != null && n.parent in nodes && n.totalSamples <= n.parent.totalSamples
  {
    assert Hung(n, root, nodes);
    ThroughAPrefix(recorded, n.parent.path, n.path);
  }

  ghost function SumTotals(recorded: seq<Path>, p: Path, frames: seq<Frame>): nat {
    if frames == [] then 0
    else SumTotals(recorded, p, frames[..|frames| - 1]) + TotalOf(recorded, p + [frames[|frames| - 1]])
  }

  /** Every frame some stack goes on to after `p` is listed. */
  ghost predicate ListsNext(recorded: seq<Path>, p: Path, frames: seq<Frame>) {
    forall i :: 0 <= i < |recorded| && p <= recorded[i] && p != recorded[i] ==> recorded[i][|p|] in frames
  }

  lemma {:induction false} SumOneMore(recorded: seq<Path>, stack: Path, p: Path, frames: seq<Frame>)
    requires NoDup(frames)
    ensures SumTotals(recorded + [stack], p, frames) == SumTotals(recorded, p, frames) +
              (if p <= stack && p != stack && stack[|p|] in frames then 1 else 0)
  {
    if frames != [] {
      var init, f := frames[..|frames| - 1], frames[|frames| - 1];
      assert frames == init + [f];
      SumOneMore(recorded, stack, p, init);
      assert (recorded + [stack])[..|recorded|] == recorded;
      if p <= stack && p != stack { assert p + [stack[|p|]] == stack[..|p| + 1]; }
      if p + [f] <= stack { assert stack[|p|] == f && p == stack[..|p|]; }
    }
  }

  lemma {:induction false} NothingToSum(p: Path, frames: seq<Frame>)
    ensures SumTotals([], p, frames) == 0
  {
    if frames != [] { NothingToSum(p, frames[..|frames| - 1]); }
  }

  /** A path's total is the stacks ending there and the totals one frame on. */
  lemma {:induction false} TotalSplits(recorded: seq<Path>, p: Path, frames: seq<Frame>)
    requires NoDup(frames) && ListsNext(recorded, p, frames)
    ensures TotalOf(recorded, p) == SelfOf(recorded, p) + SumTotals(recorded, p, frames)
  {
    if recorded == [] {
      NothingToSum(p, frames);
    } else {
      var init, last := recorded[..|recorded| - 1], recorded[|recorded| - 1];
      assert recorded == init + [last];
      assert ListsNext(init, p, frames) by {
        forall i | 0 <= i < |init| && p <= init[i] && p != init[i] ensures init[i][|p|] in frames {
          assert recorded[i] == init[i];
        }
      }
      TotalSplits(init, p, frames);
      SumOneMore(init, last, p, frames);
      if p <= last && p != last { assert recorded[|recorded| - 1][|p|] in frames; }
    }
  }

  /** A node's total is its own samples and the totals of its children, listed in any order. */
  lemma NodeTotalSplits(root: CallNode, nodes: set<CallNode>, recorded: seq<Path>, n: CallNode, frames: seq<Frame>)
    requires IsTree(root, nodes) && Counted(nodes, recorded) && n in nodes
    requires NoDup(frames) && forall f :: f in frames <==> f in n.children
    ensures n.totalSamples == n.selfSamples + SumTotals(recorded, n.path, frames)
    ensures forall f :: f in n.children ==> n.children[f].totalSamples == TotalOf(recorded, n.path + [f])
  {
    forall f | f in n.children ensures n.children[f].totalSamples == TotalOf(recorded, n.path + [f]) {
      assert Fruitful(n, root, nodes);
      assert Hung(n.children[f], root, nodes);
    }
    forall i | 0 <= i < |recorded| && n.path <= recorded[i] && n.path != recorded[i]
      ensures recorded[i][|n.path|] in frames
    {
      var next := recorded[i][..|n.path| + 1];
      assert HasNode(nodes, recorded[i]);
      var leaf :| leaf in nodes && leaf.path == recorded[i];
      PrefixHasNode(root, nodes, leaf, next);
      var child :| child in nodes && child.path == next;
      assert next == n.path + [recorded[i][|n.path|]];
      ChildrenAreComplete(root, nodes, n, child, recorded[i][|n.path|]);
    }
    TotalSplits(recorded, n.path, frames);
  }

  lemma {:induction false} CountsAdd(a: seq<Path>, b: seq<Path>, p: Path)
    ensures TotalOf(a + b, p) == TotalOf(a, p) + TotalOf(b, p)
    ensures SelfOf(a + b, p) == SelfOf(a, p) + SelfOf(b, p)
  {
    if b == [] {
      assert a + b == a;
    } else {
      assert (a + b)[..|a + b| - 1] == a + b[..|b| - 1];
      CountsAdd(a, b[..|b| - 1], p);
    }
  }

  /** Taking one equal element from each of two rearrangements leaves rearrangements. */
  lemma Plucked(init: seq<Path>, head: seq<Path>, tail: seq<Path>, x: Path)
    requires multiset(init + [x]) == multiset((head + [x]) + tail)
    ensures multiset(init) == multiset(head + tail)
  {
    assert multiset(init + [x]) == multiset(init) + multiset{x};
    assert multiset((head + [x]) + tail) == multiset(head + tail) + multiset{x};
    assert multiset(init) == multiset(init + [x]) - multiset{x};
  }

  /** Folding the stacks in another order counts every path the same. */
  lemma {:induction false} CountsIgnoreOrder(recorded: seq<Path>, shuffled: seq<Path>, p: Path)
    requires multiset(recorded) == multiset(shuffled)
    ensures TotalOf(recorded, p) == TotalOf(shuffled, p) && SelfOf(recorded, p) == SelfOf(shuffled, p)
    decreases |recorded|
  {
    if recorded == [] {
      assert |multiset(shuffled)| == 0;
    } else {
      var init, last := recorded[..|recorded| - 1], recorded[|recorded| - 1];
      assert recorded == init + [last];
      var k := IndexOf(shuffled, last);
      var head, tail := shuffled[..k], shuffled[k + 1..];
      assert shuffled == (head + [last]) + tail;
      Plucked(init, head, tail, last);
      CountsIgnoreOrder(init, head + tail, p);
      CountsAdd(head, tail, p);
      CountsAdd(head + [last], tail, p);
      CountsAdd(head, [last], p);
      CountsAdd(init, [last], p);
    }
  }

  ghost function IndexOf(s: seq<Path>, x: Path): (k: nat)
    requires x in multiset(s)
    ensures k < |s| && s[k] == x
  {
    assert x in s;
    var k :| 0 <= k < |s| && s[k] == x;
    k
  }

  ghost predicate Twin(n: CallNode, nodes: set<CallNode>)
    reads n`totalSamples, n`selfSamples, nodes`totalSamples, nodes`selfSamples
  {
    exists m :: m in nodes && m.path == n.path && m.totalSamples == n.totalSamples && m.selfSamples == n.selfSamples
  }

  /** Trees folded from the same stacks in different orders have the same paths with the same counts. */
  lemma FoldIgnoresOrder(nodes: set<CallNode>, recorded: seq<Path>, root: CallNode, others: set<CallNode>,
                         shuffled: seq<Path>, n: CallNode)
    requires Counted(nodes, recorded) && IsTree(root, others) && Counted(others, shuffled)
    requires multiset(recorded) == multiset(shuffled) && n in nodes
    ensures Twin(n, others)
  {
    CountsIgnoreOrder(recorded, shuffled, n.path);
    if n.path != [] {
      var i :| 0 <= i < |shuffled| && n.path <= shuffled[i] by {
        if forall j :: 0 <= j < |shuffled| ==> !(n.path <= shuffled[j]) { NoStackThrough(shuffled, n.path); }
      }
      assert HasNode(others, shuffled[i]);
      var leaf :| leaf in others && leaf.path == shuffled[i];
      PrefixHasNode(root, others, leaf, n.path);
    } else {
      assert root.path == n.path;
    }
    assert HasNode(others, n.path);
    var m :| m in others && m.path == n.path;
    assert Twin(n, others);
  }
}
