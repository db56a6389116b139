/** The flat profile of `perf_reports.py`: one row per frame, recursion counted once. */
module FlatProfile {
  import opened CallGraph
  import opened HotPaths
  import opened Orders

  /** The frame a stack ends in; an empty one ends in the root. */
  ghost function LastOf(p: Path): Frame {
    if p == [] then ROOT_FRAME else p[|p| - 1]
  }

  /** The frames of a stack from the start's own frame on. */
  ghost function Frames(base: Path, p: Path): set<Frame> {
    {LastOf(base)} + if |base| <= |p| then set f | f in p[|base|..] else {}
  }

  /** The frames above a node, as far as the start's. */
  ghost function Above(base: Path, p: Path): set<Frame> {
    if |p| <= |base| then {} else Frames(base, p[..|p| - 1])
  }

  /** How many stacks through the start end in frame `k`. */
  ghost function EndingIn(recorded: seq<Path>, base: Path, k: Frame): nat {
    if recorded == [] then 0
    else
      var stack := recorded[|recorded| - 1];
      EndingIn(recorded[..|recorded| - 1], base, k) + (if base <= stack && LastOf(stack) == k then 1 else 0)
  }

  /** How many stacks through the start contain frame `k` from there on, however often. */
  ghost function Containing(recorded: seq<Path>, base: Path, k: Frame): nat {
    if recorded == [] then 0
    else
      var stack := recorded[|recorded| - 1];
      Containing(recorded[..|recorded| - 1], base, k) + (if base <= stack && k in Frames(base, stack) then 1 else 0)
  }

  // ---- the counts of the nodes visited so far ----

  /** The node on path `p` is where `k` first appears. */
  ghost predicate Outermost(base: Path, p: Path, k: Frame) {
    base <= p && LastOf(p) == k && k !in Above(base, p)
  }

  ghost predicate MeetsOutermost(stack: Path, base: Path, paths: set<Path>, k: Frame) {
    exists p :: p in paths && p <= stack && Outermost(base, p, k)
  }

  ghost function SelfIn(recorded: seq<Path>, paths: set<Path>, k: Frame): nat {
    if recorded == [] then 0
    else
      var stack := recorded[|recorded| - 1];
      SelfIn(recorded[..|recorded| - 1], paths, k) + (if stack in paths && LastOf(stack) == k then 1 else 0)
  }

  ghost function TotalIn(recorded: seq<Path>, base: Path, paths: set<Path>, k: Frame): nat {
    if recorded == [] then 0
    else
      TotalIn(recorded[..|recorded| - 1], base, paths, k) +
      (if MeetsOutermost(recorded[|recorded| - 1], base, paths, k) then 1 else 0)
  }

  lemma FramesSplit(base: Path, p: Path)
    requires base <= p
    ensures Frames(base, p) == Above(base, p) + {LastOf(p)}
  {
    if |base| < |p| { assert p[|base|..] == p[..|p| - 1][|base|..] + [p[|p| - 1]]; }
  }

  lemma OutermostUnique(base: Path, p: Path, q: Path, stack: Path, k: Frame)
    requires p <= stack && q <= stack && Outermost(base, p, k) && Outermost(base, q, k)
    ensures p == q
  {
    if |p| < |q| {
      PassedFrame(base, p, q, stack);
    } else if |q| < |p| {
      PassedFrame(base, q, p, stack);
    } else {
      assert p == stack[..|p|] && q == stack[..|q|];
    }
  }

  /** The frame of a node is above every node further down the stack. */
  lemma PassedFrame(base: Path, p: Path, q: Path, stack: Path)
    requires base <= p <= stack && q <= stack && |p| < |q|
    ensures LastOf(p) in Above(base, q)
  {
    var above := q[..|q| - 1];
    assert p == stack[..|p|] && above == stack[..|q| - 1];
    if |base| < |p| { assert above[|base|..][|p| - 1 - |base|] == LastOf(p); }
  }

  lemma {:induction false} AddPath(recorded: seq<Path>, base: Path, paths: set<Path>, p: Path, k: Frame)
    requires p !in paths
    ensures SelfIn(recorded, paths + {p}, k) ==
              SelfIn(recorded, paths, k) + (if LastOf(p) == k then SelfOf(recorded, p) else 0)
    ensures TotalIn(recorded, base, paths + {p}, k) ==
              TotalIn(recorded, base, paths, k) + (if Outermost(base, p, k) then TotalOf(recorded, p) else 0)
  {
    if recorded != [] {
      AddPath(recorded[..|recorded| - 1], base, paths, p, k);
      AddPathMeets(recorded[|recorded| - 1], base, paths, p, k);
    }
  }

  lemma AddPathMeets(stack: Path, base: Path, paths: set<Path>, p: Path, k: Frame)
    requires p !in paths
    ensures MeetsOutermost(stack, base, paths + {p}, k) <==>
            MeetsOutermost(stack, base, paths, k) || (p <= stack && Outermost(base, p, k))
    ensures !(MeetsOutermost(stack, base, paths, k) && p <= stack && Outermost(base, p, k))
  {
    if MeetsOutermost(stack, base, paths, k) {
      var q :| q in paths && q <= stack && Outermost(base, q, k);
      assert q in paths + {p};
      if p <= stack && Outermost(base, p, k) { OutermostUnique(base, p, q, stack, k); }
    }
    if p <= stack && Outermost(base, p, k) { assert p in paths + {p}; }
  }

  lemma {:induction false} NoPaths(recorded: seq<Path>, base: Path, k: Frame)
    ensures SelfIn(recorded, {}, k) == 0 && TotalIn(recorded, base, {}, k) == 0
  {
    if recorded != [] { NoPaths(recorded[..|recorded| - 1], base, k); }
  }

  lemma {:induction false} FirstOccurrence(base: Path, stack: Path, k: Frame)
    requires base <= stack
    ensures k in Frames(base, stack) <==> exists p :: p <= stack && Outermost(base, p, k)
  {
    FramesSplit(base, stack);
    if k in Frames(base, stack) {
      if k !in Above(base, stack) {
        assert stack <= stack && Outermost(base, stack, k);
      } else {
        var up := stack[..|stack| - 1];
        FirstOccurrence(base, up, k);
        var p :| p <= up && Outermost(base, p, k);
        assert p <= stack;
      }
    }
    forall p | p <= stack && Outermost(base, p, k) ensures k in Frames(base, stack) {
      if |p| < |stack| { PassedFrame(base, p, stack, stack); }
      if |p| == |stack| { assert p == stack; }
    }
  }

  /** Every path from the start down to a recorded stack has been visited, and no other. */
  ghost predicate CoversAll(recorded: seq<Path>, base: Path, paths: set<Path>) {
    && (forall i, p :: 0 <= i < |recorded| && base <= p <= recorded[i] ==> p in paths)
    && (forall p :: p in paths ==> base <= p)
  }

  /** Once every node is visited, the counts are those of the stacks. */
  lemma {:induction false} AllCounted(recorded: seq<Path>, base: Path, paths: set<Path>, k: Frame)
    requires CoversAll(recorded, base, paths)
    ensures SelfIn(recorded, paths, k) == EndingIn(recorded, base, k)
    ensures TotalIn(recorded, base, paths, k) == Containing(recorded, base, k)
  {
    if recorded != [] {
      var init, stack := recorded[..|recorded| - 1], recorded[|recorded| - 1];
      assert CoversAll(init, base, paths) by {
        forall i, p | 0 <= i < |init| && base <= p <= init[i] ensures p in paths { assert init[i] == recorded[i]; }
      }
      AllCounted(init, base, paths, k);
      StackCounted(recorded, base, paths, k);
    }
  }

  lemma StackCounted(recorded: seq<Path>, base: Path, paths: set<Path>, k: Frame)
    requires recorded != [] && CoversAll(recorded, base, paths)
    ensures var stack := recorded[|recorded| - 1];
      && (stack in paths <==> base <= stack)
      && (MeetsOutermost(stack, base, paths, k) <==> base <= stack && k in Frames(base, stack))
  {
    var stack := recorded[|recorded| - 1];
    if base <= stack {
      assert base <= stack <= stack;
      FirstOccurrence(base, stack, k);
      forall p | p <= stack && Outermost(base, p, k) ensures p in paths {}
    }
    forall p | p in paths && p <= stack ensures base <= stack { assert base <= p; }
  }

  // ---- the walk ----

  type Tally = (nat, nat)

  /** A node still to visit, with the frames above it. */
  datatype Visit = Visit(node: CallNode, ancestors: set<Frame>)

  ghost predicate TallyAt(flat: map<Frame, Tally>, recorded: seq<Path>, base: Path, paths: set<Path>, k: Frame) {
    (if k in flat then flat[k] else (0, 0)) == (SelfIn(recorded, paths, k), TotalIn(recorded, base, paths, k))
  }

  /** The profile holds the frames of the visited paths, each with their counts. */
  ghost predicate Tallied(flat: map<Frame, Tally>, recorded: seq<Path>, base: Path, paths: set<Path>) {
    && (forall k {:trigger TallyAt(flat, recorded, base, paths, k)} :: TallyAt(flat, recorded, base, paths, k))
    && (forall k :: k in flat <==> exists p :: p in paths && LastOf(p) == k)
  }

  /** Count one more node: its own samples always, its total only where its frame first appears. */
  function Tallying(flat: map<Frame, Tally>, key: Frame, self: nat, total: nat, repeated: bool): map<Frame, Tally> {
    var acc := if key in flat then flat[key] else (0, 0);
    flat[key := (acc.0 + self, if repeated then acc.1 else acc.1 + total)]
  }

  lemma TalliesOne(flat: map<Frame, Tally>, recorded: seq<Path>, base: Path, paths: set<Path>, p: Path)
    requires Tallied(flat, recorded, base, paths) && p !in paths && base <= p
    ensures Tallied(Tallying(flat, LastOf(p), SelfOf(recorded, p), TotalOf(recorded, p), LastOf(p) in Above(base, p)),
                    recorded, base,
                    paths + {p})
  {
    var key := LastOf(p);
    var next := Tallying(flat, key, SelfOf(recorded, p), TotalOf(recorded, p), key in Above(base, p));
    forall k ensures TallyAt(next, recorded, base, paths + {p}, k) {
      assert TallyAt(flat, recorded, base, paths, k);
      AddPath(recorded, base, paths, p, k);
    }
    forall k ensures k in next <==> exists q :: q in paths + {p} && LastOf(q) == k {
      if k == key { assert p in paths + {p}; }
    }
  }

  ghost function PathsOf(nodes: set<CallNode>): set<Path> {
    set n | n in nodes :: n.path
  }

  /** The nodes of the subtree under a start. */
  ghost function Under(start: CallNode, nodes: set<CallNode>): set<CallNode> {
    set n | n in nodes && start.path <= n.path
  }

  /** How far the walk is: the nodes waiting are the unvisited children of visited ones, and the start at first. */
  ghost predicate Walking(start: CallNode, under: set<CallNode>, done: set<CallNode>, waiting: set<CallNode>) {
    && done <= under && waiting <= under && done !! waiting
    && (forall n :: n in done + waiting && n != start ==> n.parent in done)
    && (forall n :: n in under && n !in done && n !in waiting ==> n != start && n.parent !in done)
  }

  ghost function ChildrenOf(node: CallNode, root: CallNode, nodes: set<CallNode>): set<CallNode> {
    set n | n in nodes && n != root && n.parent == node
  }

  /** The parent of a node below the start is under the start, and children of a node there are. */
  lemma UnderParent(root: CallNode, nodes: set<CallNode>, start: CallNode, n: CallNode)
    requires IsTree(root, nodes) && start in nodes && n in nodes && n != root
    ensures n in Under(start, nodes) && n != start ==> n.parent in Under(start, nodes)
    ensures n.parent in Under(start, nodes) ==> n in Under(start, nodes) && n != start
    ensures n.parent != null && |n.path| == |n.parent.path| + 1
  {
    assert Hung(n, root, nodes);
    assert n.parent.path == n.path[..|n.path| - 1];
    if n in Under(start, nodes) && n != start {
      if n.path == start.path { PathDeterminesNode(root, nodes, n, start); }
      assert start.path == n.parent.path[..|start.path|];
    }
  }

  lemma WalkStep(root: CallNode, nodes: set<CallNode>, start: CallNode, done: set<CallNode>, waiting: set<CallNode>,
                 node: CallNode)
    requires IsTree(root, nodes) && start in nodes && Walking(start, Under(start, nodes), done, waiting)
    requires node in waiting
    ensures ChildrenOf(node, root, nodes) !! waiting
    ensures Walking(start, Under(start, nodes), done + {node}, waiting - {node} + ChildrenOf(node, root, nodes))
  {
    forall n | n in ChildrenOf(node, root, nodes) ensures n != node && n != start && n in Under(start, nodes) {
      UnderParent(root, nodes, start, n);
    }
    forall n | n in Under(start, nodes) && n.parent == node ensures n == root || n in ChildrenOf(node, root, nodes) {}
  }

  lemma {:induction false} EveryNodeVisited(root: CallNode, nodes: set<CallNode>, start: CallNode, done: set<CallNode>,
                                            n: CallNode)
    requires IsTree(root, nodes) && start in nodes && Walking(start, Under(start, nodes), done, {})
    requires n in Under(start, nodes)
    ensures n in done
    decreases |n.path|
  {
    if n != start {
      if n == root { PathDeterminesNode(root, nodes, n, start); }
      UnderParent(root, nodes, start, n);
      EveryNodeVisited(root, nodes, start, done, n.parent);
    }
  }

  lemma WalkCovers(root: CallNode, nodes: set<CallNode>, start: CallNode, recorded: seq<Path>, done: set<CallNode>)
    requires IsTree(root, nodes) && start in nodes && HasAll(nodes, recorded)
    requires Walking(start, Under(start, nodes), done, {})
    ensures CoversAll(recorded, start.path, PathsOf(done))
  {
    forall i, p | 0 <= i < |recorded| && start.path <= p <= recorded[i] ensures p in PathsOf(done) {
      assert HasNode(nodes, recorded[i]);
      var leaf :| leaf in nodes && leaf.path == recorded[i];
      PrefixHasNode(root, nodes, leaf, p);
      var n :| n in nodes && n.path == p;
      EveryNodeVisited(root, nodes, start, done, n);
    }
  }

  /** The stack of nodes to visit holds each waiting node once, with the frames above it. */
  ghost predicate Stacked(work: seq<Visit>, base: Path, waiting: set<CallNode>) {
    && (forall i :: 0 <= i < |work| ==> work[i].node in waiting && work[i].ancestors == Above(base, work[i].node.path))
    && (forall n :: n in waiting ==> exists i :: 0 <= i < |work| && work[i].node == n)
    && (forall i, j :: 0 <= i < j < |work| ==> work[i].node != work[j].node)
  }

  lemma PopVisit(work: seq<Visit>, base: Path, waiting: set<CallNode>)
    requires work != [] && Stacked(work, base, waiting)
    ensures Stacked(work[..|work| - 1], base, waiting - {work[|work| - 1].node}) && work[|work| - 1].node in waiting
  {
    var rest, node := work[..|work| - 1], work[|work| - 1].node;
    forall n | n in waiting - {node} ensures exists i :: 0 <= i < |rest| && rest[i].node == n {
      var i :| 0 <= i < |work| && work[i].node == n;
      assert rest[i].node == n;
    }
  }

  lemma PushVisit(work: seq<Visit>, base: Path, waiting: set<CallNode>, child: CallNode)
    requires Stacked(work, base, waiting) && child !in waiting
    ensures Stacked(work + [Visit(child, Above(base, child.path))], base, waiting + {child})
  {
    var grown := work + [Visit(child, Above(base, child.path))];
    assert grown[|work|].node == child;
    forall n | n in waiting + {child} ensures exists i :: 0 <= i < |grown| && grown[i].node == n {
      if n != child {
        var i :| 0 <= i < |work| && work[i].node == n;
        assert grown[i].node == n;
      }
    }
  }

  lemma ChildFacts(root: CallNode, nodes: set<CallNode>, base: Path, node: CallNode)
    requires IsTree(root, nodes) && node in nodes && base <= node.path
    ensures OwnFrames(node)
    ensures forall f :: f in node.children ==> node.children[f] in ChildrenOf(node, root, nodes)
    ensures forall n :: n in ChildrenOf(node, root, nodes) ==>
              IsChild(n, node) && Above(base, n.path) == Above(base, node.path) + {LastOf(node.path)}
  {
    assert Fruitful(node, root, nodes);
    forall n | n in ChildrenOf(node, root, nodes)
      ensures IsChild(n, node) && Above(base, n.path) == Above(base, node.path) + {LastOf(node.path)}
    {
      assert Hung(n, root, nodes);
      assert n.path[..|n.path| - 1] == node.path;
      FramesSplit(base, node.path);
    }
  }

  /** Put the children of `node` on the stack, below the frames seen on the way to them. */
  method PushChildren(work: seq<Visit>, node: CallNode, ancestors: set<Frame>, ghost root: CallNode,
                      ghost nodes: set<CallNode>, ghost base: Path, ghost waiting: set<CallNode>)
    returns (grown: seq<Visit>)
    requires IsTree(root, nodes) && node in nodes && base <= node.path
    requires ancestors == Above(base, node.path) + {LastOf(node.path)}
    requires Stacked(work, base, waiting) && ChildrenOf(node, root, nodes) !! waiting
    ensures Stacked(grown, base, waiting + ChildrenOf(node, root, nodes))
  {
    ChildFacts(root, nodes, base, node);
    ghost var children := ChildrenOf(node, root, nodes);
    grown := work;
    ghost var now := waiting;
    var left := node.children.Keys;
    while left != {}
      invariant left <= node.children.Keys && Stacked(grown, base, now)
      invariant forall n :: n in now <==> n in waiting || (n in children && n.Frame() !in left)
      decreases left
    {
      var f :| f in left;
      var child := node.children[f];
      assert child in children && child.Frame() == f;
      PushVisit(grown, base, now, child);
      grown := grown + [Visit(child, ancestors)];
      now, left := now + {child}, left - {f};
    }
    assert now == waiting + children;
  }

  lemma VisitedPaths(root: CallNode, nodes: set<CallNode>, done: set<CallNode>, node: CallNode)
    requires IsTree(root, nodes) && done <= nodes && node in nodes && node !in done
    ensures node.path !in PathsOf(done) && PathsOf(done + {node}) == PathsOf(done) + {node.path}
    ensures node.Frame() == LastOf(node.path)
  {
    forall n | n in done ensures n.path != node.path {
      if n.path == node.path { PathDeterminesNode(root, nodes, n, node); }
    }
    assert Hung(node, root, nodes);
  }

  /** The frames of the subtree: the start's own and those some stack through it has further down. */
  ghost predicate Profiled(recorded: seq<Path>, base: Path, k: Frame) {
    k == LastOf(base) || exists i :: 0 <= i < |recorded| && base <= recorded[i] && k in Frames(base, recorded[i])
  }

  /** The flat counts, frame by frame. */
  ghost predicate IsProfile(flat: map<Frame, Tally>, recorded: seq<Path>, base: Path) {
    && (forall k :: k in flat <==> Profiled(recorded, base, k))
    && (forall k :: k in flat ==> flat[k] == (EndingIn(recorded, base, k), Containing(recorded, base, k)))
  }

  lemma {:induction false} SomeStackThrough(recorded: seq<Path>, p: Path)
    requires TotalOf(recorded, p) > 0
    ensures exists i :: 0 <= i < |recorded| && p <= recorded[i]
  {
    if forall i :: 0 <= i < |recorded| ==> !(p <= recorded[i]) { NoStackThrough(recorded, p); }
  }

  /** The frames the visited paths end in are the frames of the subtree. */
  lemma LastsAreProfiled(start: CallNode, nodes: set<CallNode>, recorded: seq<Path>, done: set<CallNode>, k: Frame)
    requires done <= Under(start, nodes) && start in done && AllUsed(nodes, recorded, [])
    requires CoversAll(recorded, start.path, PathsOf(done))
    ensures Profiled(recorded, start.path, k) <==> exists p :: p in PathsOf(done) && LastOf(p) == k
  {
    var base := start.path;
    if p :| p in PathsOf(done) && LastOf(p) == k {
      if p != base {
        var n :| n in done && n.path == p;
        assert n.path <= [] || TotalOf(recorded, n.path) > 0;
        SomeStackThrough(recorded, p);
        var i :| 0 <= i < |recorded| && p <= recorded[i];
        assert recorded[i][|base|..][|p| - 1 - |base|] == k;
      }
    }
    if i :| 0 <= i < |recorded| && base <= recorded[i] && k in Frames(base, recorded[i]) {
      FirstOccurrence(base, recorded[i], k);
      var p :| p <= recorded[i] && Outermost(base, p, k);
    }
    assert base in PathsOf(done);
  }

  lemma ProfileDone(root: CallNode, nodes: set<CallNode>, start: CallNode, recorded: seq<Path>, done: set<CallNode>,
                    flat: map<Frame, Tally>)
    requires IsTree(root, nodes) && start in nodes && Counted(nodes, recorded)
    requires Walking(start, Under(start, nodes), done, {})
    requires Tallied(flat, recorded, start.path, PathsOf(done))
    ensures IsProfile(flat, recorded, start.path)
  {
    var paths := PathsOf(done);
    WalkCovers(root, nodes, start, recorded, done);
    EveryNodeVisited(root, nodes, start, done, start);
    forall k ensures k in flat ==> flat[k] == (EndingIn(recorded, start.path, k), Containing(recorded, start.path, k)) {
      assert TallyAt(flat, recorded, start.path, paths, k);
      AllCounted(recorded, start.path, paths, k);
    }
    forall k ensures k in flat <==> Profiled(recorded, start.path, k) {
      LastsAreProfiled(start, nodes, recorded, done, k);
    }
  }

  /** The first half of `hotspots`: every node's samples added up by frame. */
  method Flatten(start: CallNode, ghost root: CallNode, ghost nodes: set<CallNode>, ghost recorded: seq<Path>)
    returns (flat: map<Frame, Tally>)
    requires IsTree(root, nodes) && start in nodes && Counted(nodes, recorded)
    ensures IsProfile(flat, recorded, start.path)
  {
    flat := map[];
    var work := [Visit(start, {})];
    ghost var done, waiting := {}, {start};
    forall k ensures TallyAt(flat, recorded, start.path, {}, k) { NoPaths(recorded, start.path, k); }
    assert work[0].node == start;
    assert PathsOf(done) == {};
    StartsWalking(root, nodes, start);
    while work != []
      invariant Walking(start, Under(start, nodes), done, waiting) && Stacked(work, start.path, waiting)
      invariant Tallied(flat, recorded, start.path, PathsOf(done))
      decreases Under(start, nodes) - done
    {
      flat, work, done, waiting := VisitTop(flat, work, start, root, nodes, recorded, done, waiting);
    }
    assert waiting == {};
    ProfileDone(root, nodes, start, recorded, done, flat);
  }

  lemma StartsWalking(root: CallNode, nodes: set<CallNode>, start: CallNode)
    requires IsTree(root, nodes) && start in nodes
    ensures Walking(start, Under(start, nodes), {}, {start})
  {
  }

  /** Visit the node on top of the stack. */
  method VisitTop(flat: map<Frame, Tally>, work: seq<Visit>, ghost start: CallNode, ghost root: CallNode,
                  ghost nodes: set<CallNode>, ghost recorded: seq<Path>, ghost done: set<CallNode>,
                  ghost waiting: set<CallNode>)
    returns (tallied: map<Frame, Tally>, rest: seq<Visit>, ghost visited: set<CallNode>, ghost left: set<CallNode>)
    requires IsTree(root, nodes) && start in nodes && Counted(nodes, recorded) && work != []
    requires Walking(start, Under(start, nodes), done, waiting) && Stacked(work, start.path, waiting)
    requires Tallied(flat, recorded, start.path, PathsOf(done))
    ensures Walking(start, Under(start, nodes), visited, left) && Stacked(rest, start.path, left)
    ensures Tallied(tallied, recorded, start.path, PathsOf(visited))
    ensures done < visited <= Under(start, nodes)
  {
    ghost var base := start.path;
    PopVisit(work, base, waiting);
    var top, popped := work[|work| - 1], work[..|work| - 1];
    var node, ancestors := top.node, top.ancestors;
    var key := node.Frame();
    VisitedPaths(root, nodes, done, node);
    TalliesOne(flat, recorded, base, PathsOf(done), node.path);
    tallied := Tallying(flat, key, node.selfSamples, node.totalSamples, key in ancestors);
    WalkStep(root, nodes, start, done, waiting, node);
    rest := PushChildren(popped, node, ancestors + {key}, root, nodes, base, waiting - {node});
    visited, left := done + {node}, waiting - {node} + ChildrenOf(node, root, nodes);
  }

  // ---- the report ----

  datatype Hotspot = Hotspot(frame: Frame, selfPercent: real, totalPercent: real)

  /** Python's `[:limit]`: a negative limit drops from the end. */
  function Slice<T>(s: seq<T>, limit: int): seq<T> {
    if limit >= |s| then s else if limit >= 0 then s[..limit] else if |s| + limit >= 0 then s[..|s| + limit] else []
  }

  ghost function HotspotFor(recorded: seq<Path>, base: Path, k: Frame, total: nat): Hotspot {
    Hotspot(k, Percent(EndingIn(recorded, base, k), total), Percent(Containing(recorded, base, k), total))
  }

  /** The profiled frames, each once with its self count, hottest first and ties by name. */
  ghost predicate Ranked(rows: seq<Row>, recorded: seq<Path>, base: Path) {
    && Sorted(rows, RowLe) && NoDup(rows)
    && forall r :: r in rows <==> Profiled(recorded, base, r.frame) && r.count == EndingIn(recorded, base, r.frame)
  }

  method ProfileRows(flat: map<Frame, Tally>) returns (rows: seq<Row>)
    ensures NoDup(rows) && forall r :: r in rows <==> r.frame in flat && r.count == flat[r.frame].0
  {
    rows := [];
    var left := flat.Keys;
    while left != {}
      invariant left <= flat.Keys && NoDup(rows)
      invariant forall r :: r in rows <==> r.frame in flat && r.frame !in left && r.count == flat[r.frame].0
      decreases left
    {
      var f :| f in left;
      rows := rows + [Row(flat[f].0, f)];
      left := left - {f};
    }
  }

  /** The reported hotspots are the frames of the leading rows that some stack ends in. */
  ghost predicate Reports(shown: seq<Hotspot>, rows: seq<Row>, recorded: seq<Path>, base: Path, total: nat) {
    && |shown| <= |rows|
    && (forall i :: 0 <= i < |shown| ==>
        rows[i].count > 0 && shown[i] == HotspotFor(recorded, base, rows[i].frame, total))
    && (forall i :: |shown| <= i < |rows| ==> rows[i].count == 0)
  }

  ghost predicate RowCounted(r: Row, flat: map<Frame, Tally>, recorded: seq<Path>, base: Path) {
    r.frame in flat && flat[r.frame] == (EndingIn(recorded, base, r.frame), Containing(recorded, base, r.frame)) &&
    r.count == flat[r.frame].0
  }

  /** The rows with samples of their own, as percentages. */
  method Report(rows: seq<Row>, flat: map<Frame, Tally>, total: nat, ghost recorded: seq<Path>, ghost base: Path)
    returns (shown: seq<Hotspot>)
    requires Sorted(rows, RowLe) && forall i :: 0 <= i < |rows| ==> RowCounted(rows[i], flat, recorded, base)
    ensures Reports(shown, rows, recorded, base, total)
  {
    shown := [];
    for i := 0 to |rows|
      invariant |shown| <= i
      invariant forall j :: 0 <= j < |shown| ==>
                rows[j].count > 0 && shown[j] == HotspotFor(recorded, base, rows[j].frame, total)
      invariant forall j :: |shown| <= j < i ==> rows[j].count == 0
    {
      var row := rows[i];
      assert RowCounted(row, flat, recorded, base);
      if row.count != 0 {
        assert 0 < i ==> RowLe(rows[i - 1], rows[i]);
        shown := shown + [Hotspot(row.frame, Percent(row.count, total), Percent(flat[row.frame].1, total))];
      }
    }
  }

  /** `hotspots`: of the subtree under `start`, the frames most samples ended in, at most `limit` of them. */
  method Hotspots(start: CallNode, total: nat, limit: int, ghost root: CallNode, ghost nodes: set<CallNode>,
                  ghost recorded: seq<Path>)
    returns (shown: seq<Hotspot>)
    requires IsTree(root, nodes) && start in nodes && Counted(nodes, recorded)
    ensures exists ranked ::
              Ranked(ranked, recorded, start.path) && Reports(shown, Slice(ranked, limit), recorded, start.path, total)
  {
    var flat := Flatten(start, root, nodes, recorded);
    var rows := ProfileRows(flat);
    var sorted := Sort(rows, RowLe);
    SortRows(rows, sorted);
    RankedRows(sorted, flat, recorded, start.path);
    var leading := Slice(sorted, limit);
    forall i | 0 <= i < |leading| ensures RowCounted(leading[i], flat, recorded, start.path) {
      assert leading[i] == sorted[i] && sorted[i] in rows;
    }
    shown := Report(leading, flat, total, recorded, start.path);
  }

  lemma RankedRows(rows: seq<Row>, flat: map<Frame, Tally>, recorded: seq<Path>, base: Path)
    requires IsProfile(flat, recorded, base) && Sorted(rows, RowLe) && NoDup(rows)
    requires forall r :: r in rows <==> r.frame in flat && r.count == flat[r.frame].0
    ensures Ranked(rows, recorded, base)
  {
  }
}
