/** solve of solver.c: breadth-first search over canonical states from
    (0, 1, E0) to (0, 1, E1) inside the coordinate bound, with an index
    queue, early goal detection and parent-chain path reconstruction.
    The search itself is proved over any successor function nb; the maze's
    own graph is MazeGraph, whose successors are the neighbour lists of
    get_neighbors. */
module Solver {
  import opened Wrappers
  import opened MazeDefs
  import opened MazeIndex
  import opened MazeStore
  import opened SolverDefs
  import opened SolverGraph
  import opened BfsTable

  /** The start (0, 1, E0) and the goal (0, 1, E1) of every search. */
  const Start: State := State(0, 1, CDirE, 0)
  const Goal: State := State(0, 1, CDirE, 1)

  /** The successors of a state in the maze: its get_neighbors list when it
      is canonical, none otherwise. */
  ghost function Succ(n: int, P: seq<byte>, maxc: int, s: State): seq<State> {
    if |P| == TotalCount(n) && IsCanonical(n, s) then Neighbors(n, P, maxc, s) else []
  }

  /** The search graph of a maze with coordinate bound maxc. */
  ghost function MazeGraph(n: int, P: seq<byte>, maxc: int): State -> seq<State> {
    s => Succ(n, P, maxc, s)
  }

  /** A walk of graph nb: each state is a successor of the one before. */
  ghost predicate IsWalk(nb: State -> seq<State>, w: seq<State>) {
    |w| > 0 && forall i :: 0 <= i < |w| - 1 ==> w[i + 1] in nb(w[i])
  }

  /** A walk from the start to the goal; its port traversals are |w| - 1. */
  ghost predicate IsPath(nb: State -> seq<State>, w: seq<State>) {
    IsWalk(nb, w) && w[0] == Start && w[|w| - 1] == Goal
  }

  /** The queue holds the vis indices 0 .. k-1 in order: every index
      bfs_insert returns is the next one. */
  predicate IsIota(queue: seq<int>, k: int) {
    |queue| == k && forall j :: 0 <= j < k ==> queue[j] == j
  }

  /** Queueing the next index keeps the queue in order. */
  lemma IotaAppend(queue: seq<int>, k: int)
    requires IsIota(queue, k)
    ensures IsIota(queue + [k], k + 1)
  {
  }

  /** Every entry but the first has an earlier parent; the first has none. */
  ghost predicate Linked(vis: seq<VisEntry>) {
    |vis| >= 1 && vis[0].parent == -1 && forall i :: 0 < i < |vis| ==> 0 <= vis[i].parent < i
  }

  /** Entry j is a successor of its parent, one level deeper. */
  ghost predicate Edge(nb: State -> seq<State>, vis: seq<VisEntry>, depth: seq<int>, j: int) {
    0 < j < |vis| && j < |depth| && 0 <= vis[j].parent < j &&
    depth[j] == depth[vis[j].parent] + 1 && vis[j].state in nb(vis[vis[j].parent].state)
  }

  /** The search tree: entry 0 is the start, every other entry is a
      successor of its parent, which comes earlier, one level deeper; levels
      never decrease along vis; every state is canonical and lies in the
      box [0, b]^2. */
  ghost predicate Tree(nb: State -> seq<State>, n: int, b: int, vis: seq<VisEntry>, depth: seq<int>) {
    |vis| >= 1 && vis[0] == VisEntry(Start, -1) && |depth| == |vis| && depth[0] == 0 &&
    (forall j :: 0 <= j < |vis| ==> IsCanonical(n, vis[j].state) && InBounds(vis[j].state, b)) &&
    (forall j :: 0 < j < |vis| ==> 0 <= vis[j].parent < j) &&
    (forall j :: 0 < j < |vis| ==> Edge(nb, vis, depth, j)) &&
    (forall i, j :: 0 <= i <= j < |vis| ==> depth[i] <= depth[j])
  }

  /** The first c entries are expanded: each successor of each of them is
      visited, at most one level deeper. */
  ghost predicate Closed(nb: State -> seq<State>, vis: seq<VisEntry>, index: map<State, int>,
                         depth: seq<int>, c: int) {
    forall j, t :: (0 <= j < c && j < |vis| && t in nb(vis[j].state)) ==>
      t in index && 0 <= index[t] < |depth| && j < |depth| && depth[index[t]] <= depth[j] + 1
  }

  /** The search state before entry c is expanded: the tree, the first c
      entries expanded, and every entry at most one level below entry c. */
  ghost predicate Frontier(nb: State -> seq<State>, n: int, b: int, vis: seq<VisEntry>,
                           index: map<State, int>, depth: seq<int>, c: int) {
    Tree(nb, n, b, vis, depth) && 0 <= c <= |vis| && Closed(nb, vis, index, depth, c) &&
    (c < |vis| ==> depth[|vis| - 1] <= depth[c] + 1)
  }

  /** The loop state of solve before entry c is expanded: a valid table,
      the search state, the queue of all vis indices, and no goal yet. */
  ghost predicate Searching(bfs: Bfs, nb: State -> seq<State>, n: int, b: int, depth: seq<int>,
                            queue: seq<int>, c: int)
    reads bfs, bfs.ht
  {
    bfs.Valid() && Frontier(nb, n, b, bfs.vis, bfs.index, depth, c) &&
    IsIota(queue, |bfs.vis|) && Goal !in bfs.index
  }

  /** The state of solve when the queue runs out: every visited entry is
      expanded and the goal was never visited. */
  ghost predicate Exhausted(bfs: Bfs, nb: State -> seq<State>, n: int, b: int, depth: seq<int>)
    reads bfs, bfs.ht
  {
    bfs.Valid() && Goal !in bfs.index && Frontier(nb, n, b, bfs.vis, bfs.index, depth, |bfs.vis|)
  }

  /** The state of solve when the goal is visited as a successor of entry c:
      the search state before c, and the goal one level below c. */
  ghost predicate Found(bfs: Bfs, nb: State -> seq<State>, n: int, b: int, depth: seq<int>, c: int, g: int)
    reads bfs, bfs.ht
  {
    bfs.Valid() && Frontier(nb, n, b, bfs.vis, bfs.index, depth, c) && c < |bfs.vis| &&
    Goal in bfs.index && g == bfs.index[Goal] && depth[g] == depth[c] + 1
  }

  /** Every state of a walk from the start whose first k steps stay among
      expanded levels is visited, no deeper than its position on the walk. */
  lemma {:induction false} WalkDepth(nb: State -> seq<State>, n: int, b: int, vis: seq<VisEntry>,
                                     index: map<State, int>, depth: seq<int>, c: int, d: int, w: seq<State>, k: int)
    requires Tree(nb, n, b, vis, depth) && IndexOk(vis, index) && Closed(nb, vis, index, depth, c)
    requires forall j :: 0 <= j < |vis| && depth[j] < d ==> j < c
    requires IsWalk(nb, w) && w[0] == Start && 0 <= k < |w| && k <= d
    ensures w[k] in index && depth[index[w[k]]] <= k
  {
    if k > 0 {
      WalkDepth(nb, n, b, vis, index, depth, c, d, w, k - 1);
      var j := index[w[k - 1]];
      assert vis[j].state == w[k - 1];
      assert w[k] in nb(vis[j].state);
    } else {
      assert vis[0].state == Start;
    }
  }

  /** When every visited entry is expanded and the goal is not visited,
      no walk leads from the start to the goal. */
  lemma NoPath(nb: State -> seq<State>, n: int, b: int, vis: seq<VisEntry>, index: map<State, int>, depth: seq<int>)
    requires Tree(nb, n, b, vis, depth) && IndexOk(vis, index)
    requires Closed(nb, vis, index, depth, |vis|) && Goal !in index
    ensures forall w :: !IsPath(nb, w)
  {
    forall w | IsPath(nb, w)
      ensures false
    {
      WalkDepth(nb, n, b, vis, index, depth, |vis|, |w|, w, |w| - 1);
    }
  }

  /** The goal found as a successor of entry c, once the entries before c
      are expanded, lies at the smallest depth of any walk to it. */
  lemma Shortest(nb: State -> seq<State>, n: int, b: int, vis: seq<VisEntry>, index: map<State, int>,
                 depth: seq<int>, c: int)
    requires Tree(nb, n, b, vis, depth) && IndexOk(vis, index)
    requires 0 <= c < |vis| && Closed(nb, vis, index, depth, c)
    requires Goal in index && depth[index[Goal]] == depth[c] + 1
    ensures forall w :: IsPath(nb, w) ==> |w| >= depth[index[Goal]] + 1
  {
    forall w | IsPath(nb, w)
      ensures |w| >= depth[index[Goal]] + 1
    {
      if |w| - 1 <= depth[c] {
        WalkDepth(nb, n, b, vis, index, depth, c, depth[c], w, |w| - 1);
      }
    }
  }

  /** A path of the maze graph ends in the canonical goal E1, so the maze
      has at least two terminals. */
  lemma PathNeedsTwo(n: int, P: seq<byte>, maxc: int, w: seq<State>)
    requires IsPath(MazeGraph(n, P, maxc), w)
    ensures n >= 2
  {
    var k := |w| - 2;
    assert w[k + 1] in Succ(n, P, maxc, w[k]);
    var r := Neighbors(n, P, maxc, w[k]);
    var i :| 0 <= i < |r| && r[i] == Goal;
  }

  /** solve's first guard: below two terminals there is no path. */
  lemma NoPathSmall(n: int, P: seq<byte>, maxc: int)
    requires n < 2
    ensures forall w :: !IsPath(MazeGraph(n, P, maxc), w)
  {
    forall w | IsPath(MazeGraph(n, P, maxc), w)
      ensures false
    {
      PathNeedsTwo(n, P, maxc, w);
    }
  }

  /** Appending a successor of entry c, one level below it, keeps the tree. */
  lemma TreeAppend(nb: State -> seq<State>, n: int, b: int, vis: seq<VisEntry>, depth: seq<int>, c: int, t: State)
    requires Tree(nb, n, b, vis, depth)
    requires 0 <= c < |vis| && t in nb(vis[c].state) && IsCanonical(n, t) && InBounds(t, b)
    requires depth[|vis| - 1] <= depth[c] + 1
    ensures Tree(nb, n, b, vis + [VisEntry(t, c)], depth + [depth[c] + 1])
  {
    var vis', depth' := vis + [VisEntry(t, c)], depth + [depth[c] + 1];
    forall j | 0 < j < |vis'|
      ensures Edge(nb, vis', depth', j)
    {
      if j < |vis| {
        assert Edge(nb, vis, depth, j);
        assert vis'[vis'[j].parent] == vis[vis[j].parent];
      }
    }
    forall i, j | 0 <= i <= j < |vis'|
      ensures depth'[i] <= depth'[j]
    {
      if j == |vis| && i < |vis| {
        assert depth[i] <= depth[|vis| - 1];
      }
    }
  }

  /** Visiting a new state keeps the expanded prefix expanded. */
  lemma ClosedAppend(nb: State -> seq<State>, vis: seq<VisEntry>, index: map<State, int>,
                     depth: seq<int>, e: int, t: State, c: int, d: int)
    requires |depth| == |vis| && t !in index && e <= |vis|
    requires Closed(nb, vis, index, depth, e)
    ensures Closed(nb, vis + [VisEntry(t, c)], index[t := |vis|], depth + [d], e)
  {
    var vis', index', depth' := vis + [VisEntry(t, c)], index[t := |vis|], depth + [d];
    forall j, u | 0 <= j < e && j < |vis'| && u in nb(vis'[j].state)
      ensures u in index' && 0 <= index'[u] < |depth'| && j < |depth'| && depth'[index'[u]] <= depth'[j] + 1
    {
      assert vis'[j] == vis[j];
      assert u in index;
      assert index'[u] == index[u];
    }
  }

  /** Visiting a new successor t of entry c keeps the search state before c. */
  lemma FrontierAppend(nb: State -> seq<State>, n: int, b: int, vis: seq<VisEntry>,
                       index: map<State, int>, depth: seq<int>, c: int, t: State)
    requires Frontier(nb, n, b, vis, index, depth, c) && c < |vis| && t !in index
    requires t in nb(vis[c].state) && IsCanonical(n, t) && InBounds(t, b)
    ensures Frontier(nb, n, b, vis + [VisEntry(t, c)], index[t := |vis|], depth + [depth[c] + 1], c)
  {
    TreeAppend(nb, n, b, vis, depth, c, t);
    ClosedAppend(nb, vis, index, depth, c, t, c, depth[c] + 1);
  }

  /** Once every successor of entry c is visited, c is expanded too. */
  lemma FrontierNext(nb: State -> seq<State>, n: int, b: int, vis: seq<VisEntry>,
                     index: map<State, int>, depth: seq<int>, c: int, ns: seq<State>)
    requires Frontier(nb, n, b, vis, index, depth, c) && c < |vis| && IndexOk(vis, index)
    requires ns == nb(vis[c].state) && forall k :: 0 <= k < |ns| ==> ns[k] in index
    ensures Frontier(nb, n, b, vis, index, depth, c + 1)
  {
    forall j, u | 0 <= j < c + 1 && j < |vis| && u in nb(vis[j].state)
      ensures u in index && 0 <= index[u] < |depth| && j < |depth| && depth[index[u]] <= depth[j] + 1
    {
      if j == c {
        var k :| 0 <= k < |ns| && ns[k] == u;
        var x := index[u];
        assert depth[x] <= depth[|vis| - 1];
      }
    }
    if c + 1 < |vis| {
      assert depth[c] <= depth[c + 1];
    }
  }

  /** The states from the start down to entry j along parent links. */
  ghost function Chain(vis: seq<VisEntry>, j: int): seq<State>
    requires 0 <= j < |vis| && Linked(vis)
    decreases j
  {
    if j == 0 then [vis[0].state] else Chain(vis, vis[j].parent) + [vis[j].state]
  }

  /** The parent chain of an entry is a walk from the start to it with one
      state per level. */
  lemma {:induction false} ChainPath(nb: State -> seq<State>, n: int, b: int, vis: seq<VisEntry>, depth: seq<int>, j: int)
    requires Tree(nb, n, b, vis, depth) && 0 <= j < |vis|
    ensures |Chain(vis, j)| == depth[j] + 1 && Chain(vis, j)[0] == Start
    ensures Chain(vis, j)[|Chain(vis, j)| - 1] == vis[j].state && IsWalk(nb, Chain(vis, j))
    decreases j
  {
    if j > 0 {
      assert Edge(nb, vis, depth, j);
      var p := vis[j].parent;
      ChainPath(nb, n, b, vis, depth, p);
      var c, w := Chain(vis, p), Chain(vis, j);
      assert w == c + [vis[j].state];
      forall i | 0 <= i < |w| - 1
        ensures w[i + 1] in nb(w[i])
      {
        if i < |c| - 1 {
          assert w[i] == c[i] && w[i + 1] == c[i + 1];
        }
      }
    }
  }

  /** Every canonical state of the box [0, b]^2. */
  ghost function BoxSet(n: int, b: int): set<State> {
    set x: int, y: int, d: int, i: int | 0 <= x <= b && 0 <= y <= b && 0 <= d < 2 && 0 <= i < n :: State(x, y, d, i)
  }

  /** Visited states are distinct states of the box, so there are at most
      as many as the box holds: the queue runs out. */
  lemma BoxBound(nb: State -> seq<State>, n: int, b: int, vis: seq<VisEntry>, depth: seq<int>, index: map<State, int>)
    requires Tree(nb, n, b, vis, depth) && IndexOk(vis, index)
    ensures |vis| <= |BoxSet(n, b)|
  {
    forall s | s in index.Keys
      ensures s in BoxSet(n, b)
    {
      assert vis[index[s]].state == s;
      assert s == State(s.x, s.y, s.dir, s.idx);
    }
    SubsetCard(index.Keys, BoxSet(n, b));
  }

  /** One step of the inner loop of solve: a successor t of entry ci that
      bfs_find does not know is inserted with parent ci, one level below it,
      and its index returned; a known one gives -1 and changes nothing. */
  method Visit(bfs: Bfs, t: State, ci: int,
               ghost nb: State -> seq<State>, ghost n: int, ghost b: int, ghost depth: seq<int>)
    returns (ni: int, ghost depth': seq<int>)
    requires bfs.Valid() && Frontier(nb, n, b, bfs.vis, bfs.index, depth, ci)
    requires ci < |bfs.vis| && t in nb(bfs.vis[ci].state) && IsCanonical(n, t) && InBounds(t, b)
    modifies bfs, bfs.ht
    ensures bfs.Valid() && (bfs.ht == old(bfs.ht) || fresh(bfs.ht))
    ensures Frontier(nb, n, b, bfs.vis, bfs.index, depth', ci) && ci < |bfs.vis|
    ensures t in bfs.index && 0 <= bfs.index[t] < |depth'| && depth'[bfs.index[t]] <= depth'[ci] + 1
    ensures ni == -1 <==> t in old(bfs.index)
    ensures ni == -1 ==> bfs.vis == old(bfs.vis) && bfs.index == old(bfs.index) && depth' == depth
    ensures ni != -1 ==>
              (ni == |old(bfs.vis)| && bfs.vis == old(bfs.vis) + [VisEntry(t, ci)] &&
               bfs.index == old(bfs.index)[t := ni] && depth' == depth + [depth[ci] + 1])
  {
    depth' := depth;
    var f := bfs.Find(t);
    if f >= 0 {
      assert depth[f] <= depth[|bfs.vis| - 1];
      ni := -1;
      return;
    }
    FrontierAppend(nb, n, b, bfs.vis, bfs.index, depth, ci, t);
    ni := bfs.Insert(t, ci);
    depth' := depth + [depth[ci] + 1];
  }

  /** One pass of the inner loop of solve: neighbour ns[i] of entry ci is
      visited and, when new, queued; goalIdx is its index when it is the
      goal and -1 otherwise. */
  method Step(bfs: Bfs, t: State, queue: seq<int>, ci: int, ghost i: int, ghost ns: seq<State>,
              ghost nb: State -> seq<State>, ghost n: int, ghost b: int, ghost depth: seq<int>)
    returns (queue': seq<int>, goalIdx: int, ghost depth': seq<int>)
    requires Searching(bfs, nb, n, b, depth, queue, ci) && ci < |bfs.vis|
    requires ns == nb(bfs.vis[ci].state) && 0 <= i < |ns| && t == ns[i]
    requires IsCanonical(n, t) && InBounds(t, b)
    requires forall k :: 0 <= k < i ==> ns[k] in bfs.index
    modifies bfs, bfs.ht
    ensures bfs.ht == old(bfs.ht) || fresh(bfs.ht)
    ensures ci < |bfs.vis| && bfs.vis[ci] == old(bfs.vis[ci])
    ensures goalIdx == -1 ==>
              (Searching(bfs, nb, n, b, depth', queue', ci) && forall k :: 0 <= k <= i ==> ns[k] in bfs.index)
    ensures goalIdx != -1 ==> Found(bfs, nb, n, b, depth', ci, goalIdx)
  {
    var ni: int;
    ni, depth' := Visit(bfs, t, ci, nb, n, b, depth);
    queue' := queue;
    goalIdx := -1;
    if ni == -1 {
      return;
    }
    IotaAppend(queue, ni);
    queue' := queue' + [ni];
    if StateEq(t, Goal) {
      goalIdx := ni;
    }
  }

  /** The inner loop of solve over the successors nbrs[..nn] of entry ci:
      each state not yet visited is inserted with parent ci and queued;
      the loop ends early, returning its index, when that state is the goal. */
  method Expand(bfs: Bfs, nbrs: array<State>, nn: int, queue: seq<int>, ci: int,
                ghost nb: State -> seq<State>, ghost n: int, ghost b: int, ghost depth: seq<int>)
    returns (queue': seq<int>, goalIdx: int, ghost depth': seq<int>)
    requires Searching(bfs, nb, n, b, depth, queue, ci) && ci < |bfs.vis|
    requires 0 <= nn <= nbrs.Length && nbrs[..nn] == nb(bfs.vis[ci].state)
    requires forall k :: 0 <= k < nn ==> IsCanonical(n, nbrs[k]) && InBounds(nbrs[k], b)
    modifies bfs, bfs.ht
    ensures bfs.ht == old(bfs.ht) || fresh(bfs.ht)
    ensures goalIdx == -1 ==> Searching(bfs, nb, n, b, depth', queue', ci + 1)
    ensures goalIdx != -1 ==> Found(bfs, nb, n, b, depth', ci, goalIdx)
  {
    ghost var cur := bfs.vis[ci].state;
    ghost var ns := nbrs[..nn];
    queue' := queue;
    goalIdx := -1;
    depth' := depth;
    for i := 0 to nn
      invariant bfs.ht == old(bfs.ht) || fresh(bfs.ht)
      invariant Searching(bfs, nb, n, b, depth', queue', ci) && ci < |bfs.vis| && bfs.vis[ci].state == cur
      invariant forall k :: 0 <= k < i ==> ns[k] in bfs.index
    {
      queue', goalIdx, depth' := Step(bfs, nbrs[i], queue', ci, i, ns, nb, n, b, depth');
      if goalIdx != -1 {
        return;
      }
    }
    FrontierNext(nb, n, b, bfs.vis, bfs.index, depth', ci, ns);
  }

  /** The first loop of the path reconstruction: the number of entries on
      the parent chain from entry g back to the start. */
  method PathLength(vis: seq<VisEntry>, g: int) returns (len: int)
    requires Linked(vis) && 0 <= g < |vis|
    ensures len == |Chain(vis, g)|
  {
    len := 0;
    var i := g;
    while i >= 0
      invariant -1 <= i < |vis|
      invariant i >= 0 ==> len + |Chain(vis, i)| == |Chain(vis, g)|
      invariant i < 0 ==> len == |Chain(vis, g)|
      decreases i + 1
    {
      len := len + 1;
      i := vis[i].parent;
    }
  }

  /** The second loop: the chain written back to front into a fresh array,
      which is then the start-to-goal walk in order. */
  method FillPath(vis: seq<VisEntry>, g: int, len: int) returns (path: array<State>)
    requires Linked(vis) && 0 <= g < |vis| && len == |Chain(vis, g)|
    ensures fresh(path) && path[..] == Chain(vis, g)
  {
    path := new State[len](_ => Start);
    var j := len - 1;
    var i := g;
    ghost var suffix: seq<State> := [];
    while i >= 0
      invariant -1 <= i < |vis| && -1 <= j < len
      invariant path[j + 1..] == suffix
      invariant i >= 0 ==> j + 1 == |Chain(vis, i)| && Chain(vis, i) + suffix == Chain(vis, g)
      invariant i < 0 ==> j == -1 && suffix == Chain(vis, g)
      decreases i + 1
    {
      path[j] := vis[i].state;
      suffix := [vis[i].state] + suffix;
      if i > 0 {
        assert Chain(vis, vis[i].parent) + suffix == Chain(vis, g);
      }
      j := j - 1;
      i := vis[i].parent;
    }
  }

  /** get_neighbors called on a visited state: its successors in the maze
      graph, all canonical and inside the box. */
  method Fetch(m: Maze, maxc: int, cur: State, nbrs: array<State>, ghost nb: State -> seq<State>, ghost B: int)
    returns (nn: int)
    requires m.Valid() && nb == MazeGraph(m.nterm, m.Ports(), maxc) && maxc <= B && nbrs.Length == 8 * m.nterm
    requires IsCanonical(m.nterm, cur) && InBounds(cur, B)
    modifies nbrs
    ensures 0 <= nn <= nbrs.Length && nbrs[..nn] == nb(cur)
    ensures forall k :: 0 <= k < nn ==> IsCanonical(m.nterm, nbrs[k]) && InBounds(nbrs[k], B)
  {
    nn := GetNeighbors(m, cur, maxc, nbrs);
    NeighborsBox(m.nterm, m.Ports(), maxc, B, cur);
    forall k | 0 <= k < nn
      ensures IsCanonical(m.nterm, nbrs[k]) && InBounds(nbrs[k], B)
    {
      assert nbrs[k] in nbrs[..nn];
    }
  }

  /** One round of the outer loop of solve: the entry at the queue head is
      expanded by get_neighbors and the inner loop. */
  method Round(m: Maze, maxc: int, bfs: Bfs, nbrs: array<State>, queue: seq<int>, qHead: int,
               ghost nb: State -> seq<State>, ghost B: int, ghost depth: seq<int>)
    returns (queue': seq<int>, goalIdx: int, ghost depth': seq<int>)
    requires m.Valid() && nb == MazeGraph(m.nterm, m.Ports(), maxc) && maxc <= B && nbrs.Length == 8 * m.nterm
    requires Searching(bfs, nb, m.nterm, B, depth, queue, qHead) && qHead < |bfs.vis|
    modifies bfs, bfs.ht, nbrs
    ensures bfs.ht == old(bfs.ht) || fresh(bfs.ht)
    ensures goalIdx == -1 ==> Searching(bfs, nb, m.nterm, B, depth', queue', qHead + 1)
    ensures goalIdx != -1 ==> Found(bfs, nb, m.nterm, B, depth', qHead, goalIdx)
    ensures qHead < |BoxSet(m.nterm, B)|
  {
    BoxBound(nb, m.nterm, B, bfs.vis, depth, bfs.index);
    var ci := queue[qHead];
    var cur := bfs.vis[ci].state;
    var nn := Fetch(m, maxc, cur, nbrs, nb, B);
    queue', goalIdx, depth' := Expand(bfs, nbrs, nn, queue, ci, nb, m.nterm, B, depth);
  }

  /** bfs_init, then the start inserted without parent and queued. */
  method InitSearch(ghost nb: State -> seq<State>, ghost n: int, ghost B: int) returns (bfs: Bfs, queue: seq<int>)
    requires n >= 1 && B >= 1
    ensures fresh(bfs) && fresh(bfs.ht) && Searching(bfs, nb, n, B, [0], queue, 0)
  {
    bfs := new Bfs();
    var si := bfs.Insert(Start, -1);
    queue := [si];
  }

  /** The outer loop of solve: rounds until the queue runs out or the goal
      is visited. It ends because visited states are distinct states of a
      finite box. */
  method Search(m: Maze, maxc: int, ghost nb: State -> seq<State>, ghost B: int)
    returns (bfs: Bfs, goalIdx: int, ghost depth: seq<int>, ghost gc: int)
    requires m.Valid() && m.nterm >= 2 && nb == MazeGraph(m.nterm, m.Ports(), maxc) && 1 <= B && maxc <= B
    ensures fresh(bfs)
    ensures goalIdx == -1 ==> Exhausted(bfs, nb, m.nterm, B, depth)
    ensures goalIdx != -1 ==> Found(bfs, nb, m.nterm, B, depth, gc, goalIdx)
  {
    var nbrs := new State[8 * m.nterm];
    var queue;
    bfs, queue := InitSearch(nb, m.nterm, B);
    goalIdx, depth, gc := Rounds(m, maxc, bfs, nbrs, queue, nb, B);
  }

  /** The outer loop of solve from the start's round on: rounds until the
      queue runs out or the goal is visited. It ends because visited states
      are distinct states of a finite box. */
  method Rounds(m: Maze, maxc: int, bfs: Bfs, nbrs: array<State>, queue0: seq<int>,
                ghost nb: State -> seq<State>, ghost B: int)
    returns (goalIdx: int, ghost depth: seq<int>, ghost gc: int)
    requires m.Valid() && nb == MazeGraph(m.nterm, m.Ports(), maxc) && maxc <= B && nbrs.Length == 8 * m.nterm
    requires Searching(bfs, nb, m.nterm, B, [0], queue0, 0)
    modifies bfs, bfs.ht, nbrs
    ensures bfs.ht == old(bfs.ht) || fresh(bfs.ht)
    ensures goalIdx == -1 ==> Exhausted(bfs, nb, m.nterm, B, depth)
    ensures goalIdx != -1 ==> Found(bfs, nb, m.nterm, B, depth, gc, goalIdx)
  {
    var queue := queue0;
    var qHead := 0;
    depth := [0];
    goalIdx := -1;
    gc := 0;
    ghost var ht0 := bfs.ht;
    while qHead < |queue|
      invariant (bfs.ht == ht0 || fresh(bfs.ht)) && Searching(bfs, nb, m.nterm, B, depth, queue, qHead)
      decreases |BoxSet(m.nterm, B)| - qHead
    {
      queue, goalIdx, depth := Round(m, maxc, bfs, nbrs, queue, qHead, nb, B, depth);
      if goalIdx != -1 {
        gc := qHead;
        return;
      }
      qHead := qHead + 1;
    }
  }

  /** solve: -1 when the maze has fewer than two terminals or no walk of
      its graph leads from (0, 1, E0) to (0, 1, E1); otherwise the number
      of port traversals of a shortest such walk, which is returned as well
      (as path, when wantPath asks for it, and as its length pathLen). */
  method Solve(m: Maze, maxc: int, wantPath: bool)
    returns (r: int, path: Option<array<State>>, pathLen: int, ghost walk: seq<State>)
    requires m.Valid()
    ensures r == -1 ==> path == None && pathLen == 0 && forall w :: !IsPath(MazeGraph(m.nterm, m.Ports(), maxc), w)
    ensures r != -1 ==> (r >= 0 && pathLen == r + 1 && |walk| == pathLen &&
                         IsPath(MazeGraph(m.nterm, m.Ports(), maxc), walk) &&
                         forall w :: IsPath(MazeGraph(m.nterm, m.Ports(), maxc), w) ==> |w| >= |walk|)
    ensures path.Some? <==> wantPath && r != -1
    ensures path.Some? ==> fresh(path.value) && path.value[..] == walk
  {
    ghost var nb := MazeGraph(m.nterm, m.Ports(), maxc);
    path, pathLen, walk := None, 0, [];
    if m.nterm < 2 {
      NoPathSmall(m.nterm, m.Ports(), maxc);
      return -1, path, pathLen, walk;
    }
    ghost var B := if maxc >= 1 then maxc else 1;
    var bfs, goalIdx, depth, gc := Search(m, maxc, nb, B);
    if goalIdx == -1 {
      NoPath(nb, m.nterm, B, bfs.vis, bfs.index, depth);
      return -1, path, pathLen, walk;
    }
    Shortest(nb, m.nterm, B, bfs.vis, bfs.index, depth, gc);
    ChainPath(nb, m.nterm, B, bfs.vis, depth, goalIdx);
    walk := Chain(bfs.vis, goalIdx);
    pathLen := PathLength(bfs.vis, goalIdx);
    if wantPath {
      var a := FillPath(bfs.vis, goalIdx, pathLen);
      path := Some(a);
    }
    r := pathLen - 1;
  }
}
