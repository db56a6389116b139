/** What a rendered call graph shows (`perf_reports.py`): the hottest nodes of a tree, found by a best-first search. */
module HotPaths {
  import opened CallGraph
  import opened Orders
  import opened Rounding

  /** `percent`: a share of the whole to 2 decimals, 0 when nothing was sampled. */
  function Percent(part: nat, whole: nat): real {
    if whole == 0 then 0.0 else RoundHalfEven(100.0 * part as real / whole as real * 100.0) as real / 100.0
  }

  lemma QuotientGrows(x: real, y: real, d: real)
    requires x <= y && d > 0.0
    ensures x / d <= y / d
  {
  }

  /** More samples never show a smaller share. */
  lemma PercentGrows(part: nat, more: nat, whole: nat)
    requires part <= more
    ensures Percent(part, whole) <= Percent(more, whole)
  {
    if whole != 0 {
      QuotientGrows(100.0 * part as real, 100.0 * more as real, whole as real);
      RoundsToNearest(100.0 * part as real / whole as real * 100.0, 100.0 * more as real / whole as real * 100.0);
    }
  }

  // ---- ordering siblings ----

  function FrameLess(a: Frame, b: Frame): bool {
    if a.0 == b.0 then StringLe(a.1, b.1) else StringLe(a.0, b.0)
  }

  /** A frame with its sample count. */
  datatype Row = Row(count: nat, frame: Frame)

  /** Hottest first, ties by name: the keys `(-count, symbol, dso)`. */
  predicate RowLe(a: Row, b: Row) {
    a.count > b.count || (a.count == b.count && FrameLess(a.frame, b.frame))
  }

  lemma RowLeIsLinear()
    ensures LinearOrder(RowLe)
  {
    StringLeIsLinear();
    assert forall a: string, b: string :: StringLe(a, b) || StringLe(b, a);
    assert forall a: string, b: string :: StringLe(a, b) && StringLe(b, a) ==> a == b;
    assert forall a: string, b: string, c: string :: StringLe(a, b) && StringLe(b, c) ==> StringLe(a, c);
    forall a: Row, b: Row ensures RowLe(a, b) || RowLe(b, a) {
    }
    forall a: Row, b: Row | RowLe(a, b) && RowLe(b, a) ensures a == b {
    }
    forall a: Row, b: Row, c: Row | RowLe(a, b) && RowLe(b, c) ensures RowLe(a, c) {
    }
  }

  predicate IsChild(c: CallNode, node: CallNode)
    reads node`children
  {
    c.Frame() in node.children && node.children[c.Frame()] == c
  }

  /** Every child sits under its own frame. */
  ghost predicate OwnFrames(node: CallNode)
    reads node`children
  {
    forall f :: f in node.children ==> node.children[f].Frame() == f
  }

  function RowOf(n: CallNode): Row
    reads n`totalSamples
  {
    Row(n.totalSamples, n.Frame())
  }

  lemma SortRows(rows: seq<Row>, sorted: seq<Row>)
    requires NoDup(rows) && sorted == Sort(rows, RowLe)
    ensures Sorted(sorted, RowLe) && NoDup(sorted) && forall r :: r in sorted <==> r in rows
  {
    RowLeIsLinear();
    SortSorts(rows, RowLe);
    NoDupPermutation(rows, sorted);
    SameMembers(rows, sorted);
  }

  /** One row per child, in no particular order. */
  method ChildRows(node: CallNode) returns (rows: seq<Row>)
    requires OwnFrames(node)
    ensures NoDup(rows) && forall r :: r in rows <==> r.frame in node.children && r == RowOf(node.children[r.frame])
  {
    rows := [];
    var left := node.children.Keys;
    while left != {}
      invariant left <= node.children.Keys && NoDup(rows)
      invariant forall r :: r in rows <==>
                r.frame in node.children && r.frame !in left && r == RowOf(node.children[r.frame])
      decreases left
    {
      var f :| f in left;
      rows := rows + [RowOf(node.children[f])];
      left := left - {f};
    }
  }

  ghost predicate InOrder(nodes: seq<CallNode>)
    reads nodes
  {
    forall i, j :: 0 <= i < j < |nodes| ==> RowLe(RowOf(nodes[i]), RowOf(nodes[j]))
  }

  /** `ordered_children`: the children, hottest first, ties broken by name. */
  method OrderedChildren(node: CallNode) returns (ordered: seq<CallNode>)
    requires OwnFrames(node)
    ensures NoDup(ordered) && InOrder(ordered)
    ensures forall c :: c in ordered ==> IsChild(c, node)
    ensures forall f :: f in node.children ==> node.children[f] in ordered
  {
    var rows := ChildRows(node);
    var sorted := Sort(rows, RowLe);
    SortRows(rows, sorted);
    ordered := [];
    for k := 0 to |sorted|
      invariant |ordered| == k
      invariant forall i :: 0 <= i < k ==> IsChild(ordered[i], node) && RowOf(ordered[i]) == sorted[i]
    {
      assert sorted[k] in rows;
      ordered := ordered + [node.children[sorted[k].frame]];
    }
    forall f | f in node.children ensures node.children[f] in ordered {
      assert RowOf(node.children[f]) in rows;
      var k :| 0 <= k < |sorted| && sorted[k] == RowOf(node.children[f]);
      assert ordered[k] == node.children[f];
    }
  }

  // ---- the nodes shown ----

  /** The node asked for, and every node below it with at least the given share of the samples. */
  ghost function Eligible(start: CallNode, nodes: set<CallNode>, total: nat, minPercent: real): set<CallNode>
    reads nodes`totalSamples
  {
    set n | n in nodes &&
            (n == start ||
             (start.path <= n.path && start.path != n.path && Percent(n.totalSamples, total) >= minPercent))
  }

  ghost predicate Attached(n: CallNode, start: CallNode, eligible: set<CallNode>)
    reads n`totalSamples, eligible`totalSamples
  {
    n != start ==> n.parent != null && n.parent in eligible && n.totalSamples <= n.parent.totalSamples &&
                   |n.parent.path| < |n.path|
  }

  /** Every candidate but the start hangs from a candidate at least as hot. */
  ghost predicate Connected(start: CallNode, eligible: set<CallNode>)
    reads eligible`totalSamples
  {
    && start in eligible
    && forall n {:trigger Attached(n, start, eligible)} :: n in eligible ==> Attached(n, start, eligible)
  }

  lemma EligibleConnected(root: CallNode, nodes: set<CallNode>, recorded: seq<Path>, start: CallNode, total: nat,
                          minPercent: real)
    requires IsTree(root, nodes) && Counted(nodes, recorded) && start in nodes
    ensures Connected(start, Eligible(start, nodes, total, minPercent))
  {
    var eligible := Eligible(start, nodes, total, minPercent);
    forall n | n in eligible ensures Attached(n, start, eligible) {
      if n != start {
        assert n != root;
        ParentIsHotter(root, nodes, recorded, n);
        assert Hung(n, root, nodes);
        assert n.parent.path == n.path[..|n.path| - 1];
        assert start.path == n.parent.path[..|start.path|];
        if n.parent.path == start.path { PathDeterminesNode(root, nodes, n.parent, start); }
        PercentGrows(n.totalSamples, n.parent.totalSamples, total);
      }
    }
  }

  /** How far the search is: what is kept hangs together, the front is what hangs from it, and is no hotter. */
  ghost predicate Searching(start: CallNode, eligible: set<CallNode>, kept: set<CallNode>, front: set<CallNode>)
    reads eligible`totalSamples
  {
    && kept <= eligible && front <= eligible && kept !! front
    && (forall n :: n in kept && n != start ==> n.parent in kept)
    && (forall n :: n in front && n != start ==> n.parent in kept)
    && (forall n :: n in eligible && n !in kept && n !in front ==> n != start && n.parent !in kept)
    && (forall k, f :: k in kept && f in front ==> k.totalSamples >= f.totalSamples)
  }

  ghost predicate Hottest(node: CallNode, front: set<CallNode>)
    reads node`totalSamples, front`totalSamples
  {
    forall f :: f in front ==> f.totalSamples <= node.totalSamples
  }

  ghost function Under(node: CallNode, start: CallNode, eligible: set<CallNode>): set<CallNode> {
    set n | n in eligible && n != start && n.parent == node
  }

  lemma SearchStep(start: CallNode, eligible: set<CallNode>, kept: set<CallNode>, front: set<CallNode>, node: CallNode)
    requires Connected(start, eligible) && Searching(start, eligible, kept, front) && node in front
    requires Hottest(node, front)
    ensures Under(node, start, eligible) !! front && Under(node, start, eligible) !! kept
    ensures Searching(start, eligible, kept + {node}, front - {node} + Under(node, start, eligible))
  {
    var kids := Under(node, start, eligible);
    forall n | n in kids ensures n !in front && n !in kept && n.totalSamples <= node.totalSamples {
      assert Attached(n, start, eligible);
    }
  }

  /** Every candidate left out hangs, perhaps far down, from a front node at least as hot. */
  lemma {:induction false} LeftOutIsColder(start: CallNode, eligible: set<CallNode>, kept: set<CallNode>,
                                           front: set<CallNode>, n: CallNode)
    requires Connected(start, eligible) && Searching(start, eligible, kept, front) && n in eligible && n !in kept
    ensures front != {}
    ensures forall k :: k in kept ==> n.totalSamples <= k.totalSamples
    decreases |n.path|
  {
    if n !in front {
      assert Attached(n, start, eligible);
      LeftOutIsColder(start, eligible, kept, front, n.parent);
    }
  }

  /** `kept` is the answer: connected, of the size asked for, and nothing left out is hotter. */
  ghost predicate Shows(start: CallNode, eligible: set<CallNode>, limit: int, kept: set<CallNode>, truncated: bool)
    reads eligible`totalSamples
  {
    && kept <= eligible
    && |kept| == (if limit <= 0 then 0 else if limit <= |eligible| then limit else |eligible|)
    && (truncated <==> |eligible| > limit)
    && (forall n :: n in kept && n != start ==> n.parent in kept)
    && (forall k, n :: k in kept && n in eligible && n !in kept ==> n.totalSamples <= k.totalSamples)
  }

  /** One heap entry of the frontier: `(-total, pushed, node)`. */
  datatype Entry = Entry(count: nat, pushed: nat, node: CallNode)

  predicate PopsBefore(a: Entry, b: Entry) {
    a.count > b.count || (a.count == b.count && a.pushed <= b.pushed)
  }

  predicate Least(e: Entry, heap: set<Entry>) {
    forall d :: d in heap ==> PopsBefore(e, d)
  }

  lemma {:induction false} HeapHasLeast(heap: set<Entry>)
    requires heap != {}
    ensures exists e :: e in heap && Least(e, heap)
  {
    var x :| x in heap;
    if heap != {x} {
      HeapHasLeast(heap - {x});
      var m :| m in heap - {x} && Least(m, heap - {x});
      var least := if PopsBefore(m, x) then m else x;
      forall d | d in heap ensures PopsBefore(least, d) {
        assert d == x || PopsBefore(m, d);
      }
      assert Least(least, heap);
    } else {
      assert Least(x, heap);
    }
  }

  /** The heap holds the front, once each, and no two entries tie on their counts and push numbers. */
  ghost predicate HeapOf(heap: set<Entry>, pushed: nat, front: set<CallNode>)
    reads front`totalSamples
  {
    && (forall e :: e in heap ==> e.node in front && e.pushed < pushed && e.count == e.node.totalSamples)
    && (forall n :: n in front ==> exists e :: e in heap && e.node == n)
    && (forall d, e :: d in heap && e in heap && (d.pushed == e.pushed || d.node == e.node) ==> d == e)
  }

  method Pop(heap: set<Entry>, ghost pushed: nat, ghost front: set<CallNode>) returns (node: CallNode, rest: set<Entry>)
    requires heap != {} && HeapOf(heap, pushed, front)
    ensures node in front && Hottest(node, front) && HeapOf(rest, pushed, front - {node})
  {
    HeapHasLeast(heap);
    var e :| e in heap && Least(e, heap);
    node, rest := e.node, heap - {e};
    forall f | f in front ensures f.totalSamples <= node.totalSamples {
      var d :| d in heap && d.node == f;
      assert PopsBefore(e, d);
    }
  }

  lemma PushOne(heap: set<Entry>, pushed: nat, front: set<CallNode>, child: CallNode)
    requires HeapOf(heap, pushed, front) && child !in front
    ensures HeapOf(heap + {Entry(child.totalSamples, pushed, child)}, pushed + 1, front + {child})
  {
    var grown := heap + {Entry(child.totalSamples, pushed, child)};
    forall n | n in front + {child} ensures exists e :: e in grown && e.node == n {
      if n == child {
        assert Entry(child.totalSamples, pushed, child).node == n;
      } else {
        var e :| e in heap && e.node == n;
        assert e in grown;
      }
    }
  }

  /** The children of `node` shown under it: those with enough of the samples. */
  ghost predicate Shared(under: set<CallNode>, node: CallNode, total: nat, minPercent: real)
    reads node`children, node.children.Values`totalSamples, under`totalSamples
  {
    && OwnFrames(node)
    && (forall f :: f in node.children && Percent(node.children[f].totalSamples, total) >= minPercent ==>
        node.children[f] in under)
    && (forall n :: n in under ==> IsChild(n, node) && Percent(n.totalSamples, total) >= minPercent)
  }

  /** Push every listed child with enough of the samples. */
  method PushListed(heap: set<Entry>, pushed: nat, ordered: seq<CallNode>, total: nat, minPercent: real,
                    ghost under: set<CallNode>, ghost front: set<CallNode>)
    returns (grown: set<Entry>, next: nat)
    requires HeapOf(heap, pushed, front) && under !! front && NoDup(ordered)
    requires forall n :: n in under ==> n in ordered
    requires forall i :: 0 <= i < |ordered| ==>
              (Percent(ordered[i].totalSamples, total) >= minPercent <==> ordered[i] in under)
    ensures HeapOf(grown, next, front + under)
  {
    grown, next := heap, pushed;
    ghost var now := front;
    for k := 0 to |ordered|
      invariant HeapOf(grown, next, now)
      invariant forall n :: n in now ==> n in front || (n in under && n in ordered[..k])
      invariant forall n :: n in front ==> n in now
      invariant forall i :: 0 <= i < k && ordered[i] in under ==> ordered[i] in now
    {
      var child := ordered[k];
      if Percent(child.totalSamples, total) >= minPercent {
        PushOne(grown, next, now, child);
        grown, next := grown + {Entry(child.totalSamples, next, child)}, next + 1;
        now := now + {child};
      }
    }
    assert now == front + under;
  }

  lemma ChildrenUnder(root: CallNode, nodes: set<CallNode>, start: CallNode, node: CallNode, total: nat,
                      minPercent: real)
    requires IsTree(root, nodes) && start in nodes && node in Eligible(start, nodes, total, minPercent)
    ensures Shared(Under(node, start, Eligible(start, nodes, total, minPercent)), node, total, minPercent)
  {
    var eligible := Eligible(start, nodes, total, minPercent);
    assert Fruitful(node, root, nodes);
    forall f | f in node.children && Percent(node.children[f].totalSamples, total) >= minPercent
      ensures node.children[f] in Under(node, start, eligible)
    {
      var c := node.children[f];
      assert Hung(c, root, nodes);
      assert start.path <= node.path <= c.path && |start.path| <= |node.path| < |c.path|;
    }
    forall n | n in Under(node, start, eligible) ensures IsChild(n, node) {
      assert Hung(n, root, nodes);
      assert n != root;
    }
  }

  /** Push the children of the node just shown that have enough of the samples. */
  method PushEligible(heap: set<Entry>, pushed: nat, node: CallNode, ghost start: CallNode, total: nat,
                      minPercent: real, ghost root: CallNode, ghost nodes: set<CallNode>, ghost under: set<CallNode>,
                      ghost front: set<CallNode>)
    returns (grown: set<Entry>, next: nat)
    requires HeapOf(heap, pushed, front) && under !! front
    requires IsTree(root, nodes) && start in nodes && node in Eligible(start, nodes, total, minPercent)
    requires under == Under(node, start, Eligible(start, nodes, total, minPercent))
    ensures HeapOf(grown, next, front + under)
  {
    ChildrenUnder(root, nodes, start, node, total, minPercent);
    var ordered := OrderedChildren(node);
    forall i | 0 <= i < |ordered|
      ensures Percent(ordered[i].totalSamples, total) >= minPercent <==> ordered[i] in under
    {
      assert ordered[i] in ordered;
      assert IsChild(ordered[i], node);
    }
    forall n | n in under ensures n in ordered { assert IsChild(n, node); }
    grown, next := PushListed(heap, pushed, ordered, total, minPercent, under, front);
  }

  lemma KeptSize(eligible: set<CallNode>, kept: set<CallNode>)
    requires kept <= eligible
    ensures |kept| <= |eligible| && (kept != eligible ==> |kept| < |eligible|)
  {
    assert eligible == kept + (eligible - kept);
    if kept != eligible { assert eligible - kept != {}; }
  }

  lemma SearchOver(start: CallNode, eligible: set<CallNode>, kept: set<CallNode>, front: set<CallNode>, limit: int)
    requires Connected(start, eligible) && Searching(start, eligible, kept, front) && (kept == {} || |kept| <= limit)
    requires front == {} || |kept| >= limit
    ensures Shows(start, eligible, limit, kept, front != {})
  {
    KeptSize(eligible, kept);
    forall n | n in eligible && n !in kept
      ensures front != {} && forall k :: k in kept ==> n.totalSamples <= k.totalSamples
    {
      LeftOutIsColder(start, eligible, kept, front, n);
    }
    if front == {} {
      assert kept == eligible;
    }
  }

  lemma SearchStarts(start: CallNode, eligible: set<CallNode>)
    requires Connected(start, eligible)
    ensures Searching(start, eligible, {}, {start}) && HeapOf({Entry(start.totalSamples, 0, start)}, 1, {start})
  {
    assert Entry(start.totalSamples, 0, start).node == start;
  }

  /** Show the hottest node of the frontier and put its children there. */
  method ShowNext(frontier: set<Entry>, pushed: nat, ghost start: CallNode, total: nat, minPercent: real,
                  ghost root: CallNode, ghost nodes: set<CallNode>, ghost eligible: set<CallNode>,
                  ghost kept: set<CallNode>, ghost front: set<CallNode>)
    returns (node: CallNode, rest: set<Entry>, next: nat, ghost ahead: set<CallNode>)
    requires IsTree(root, nodes) && start in nodes && eligible == Eligible(start, nodes, total, minPercent)
    requires Connected(start, eligible) && Searching(start, eligible, kept, front)
    requires frontier != {} && HeapOf(frontier, pushed, front)
    ensures node in eligible && node !in kept && Searching(start, eligible, kept + {node}, ahead)
    ensures HeapOf(rest, next, ahead)
  {
    var popped;
    node, popped := Pop(frontier, pushed, front);
    SearchStep(start, eligible, kept, front, node);
    ghost var under := Under(node, start, eligible);
    rest, next := PushEligible(popped, pushed, node, start, total, minPercent, root, nodes, under, front - {node});
    ahead := front - {node} + under;
  }

  /** `shown_nodes`: the `limit` hottest nodes at or above `minPercent`, found outwards from `start`. */
  method ShownNodes(start: CallNode, total: nat, minPercent: real, limit: int, ghost root: CallNode,
                    ghost nodes: set<CallNode>, ghost recorded: seq<Path>)
    returns (kept: set<CallNode>, truncated: bool)
    requires IsTree(root, nodes) && Counted(nodes, recorded) && start in nodes
    ensures Shows(start, Eligible(start, nodes, total, minPercent), limit, kept, truncated)
  {
    ghost var eligible := Eligible(start, nodes, total, minPercent);
    EligibleConnected(root, nodes, recorded, start, total, minPercent);
    SearchStarts(start, eligible);
    kept := {};
    var frontier, pushed := {Entry(start.totalSamples, 0, start)}, 1;
    ghost var front := {start};
    while frontier != {}
      invariant Searching(start, eligible, kept, front) && HeapOf(frontier, pushed, front)
      invariant kept == {} || |kept| <= limit
      decreases eligible - kept
    {
      if |kept| >= limit {
        SearchOver(start, eligible, kept, front, limit);
        return kept, true;
      }
      var node;
      node, frontier, pushed, front := ShowNext(frontier, pushed, start, total, minPercent, root, nodes, eligible, kept,
                                                front);
      kept := kept + {node};
    }
    SearchOver(start, eligible, kept, front, limit);
    truncated := false;
  }
}
