/** quizmaster.c with the QMResult record of quizmaster.h: hill climbing
    over one mutable maze, one random port flip at a time, scored by solve,
    with a random restart after a run of flips that did not help. */
module Quizmaster {
  import opened Wrappers
  import opened MazeDefs
  import opened MazeIndex
  import opened MazeStore
  import opened SolverDefs
  import opened Solver

  /** QMResult: the best maze (null when there is none), its length, and a
      shortest path of it (None for NULL) with that path's length. */
  datatype QMResult = QMResult(bestMaze: Maze?, bestLength: int,
                               bestPath: Option<array<State>>, bestPathLen: int)

  /** The result quizmaster_search starts from: {NULL, 0, NULL, 0}. */
  const Empty: QMResult := QMResult(null, 0, None, 0)

  /** Stagnant flips in a row that trigger a random restart. */
  const RestartThreshold: int := 1000

  /** The score the search gives a table: 0 when no walk reaches the goal
      (solve's -1 read as 0), otherwise the port traversals of a shortest
      walk from start to goal. */
  ghost predicate Scored(n: int, P: seq<byte>, maxc: int, len: int) {
    len >= 0 &&
    (len == 0 ==> forall w :: !IsPath(MazeGraph(n, P, maxc), w)) &&
    (len > 0 ==> (exists w :: IsPath(MazeGraph(n, P, maxc), w) && |w| == len + 1) &&
                 forall w :: IsPath(MazeGraph(n, P, maxc), w) ==> |w| >= len + 1)
  }

  /** A table has one score. */
  lemma ScoredUnique(n: int, P: seq<byte>, maxc: int, a: int, b: int)
    requires Scored(n, P, maxc, a) && Scored(n, P, maxc, b)
    ensures a == b
  {
    if a > 0 {
      var w :| IsPath(MazeGraph(n, P, maxc), w) && |w| == a + 1;
      if b > 0 {
        var v :| IsPath(MazeGraph(n, P, maxc), v) && |v| == b + 1;
        assert |v| >= a + 1 && |w| >= b + 1;
      }
    }
  }

  /** What solve promises, with a negative result read as 0, is the score:
      a start-to-goal walk has at least two states, so solve never
      returns 0. */
  lemma SolveScore(n: int, P: seq<byte>, maxc: int, r: int, walk: seq<State>)
    requires r == -1 ==> forall w :: !IsPath(MazeGraph(n, P, maxc), w)
    requires r != -1 ==> (r >= 0 && |walk| == r + 1 && IsPath(MazeGraph(n, P, maxc), walk) &&
                          forall w :: IsPath(MazeGraph(n, P, maxc), w) ==> |w| >= |walk|)
    ensures Scored(n, P, maxc, if r < 0 then 0 else r)
  {
    if r != -1 {
      assert walk[0] == Start && walk[|walk| - 1] == Goal;
    }
  }

  /** solve(m, max_coord, NULL, NULL), with a negative result read as 0. */
  method Score(m: Maze, maxc: int) returns (len: int)
    requires m.Valid()
    ensures Scored(m.nterm, m.Ports(), maxc, len)
  {
    var r, path, pathLen;
    ghost var walk;
    r, path, pathLen, walk := Solve(m, maxc, false);
    SolveScore(m.nterm, m.Ports(), maxc, r, walk);
    len := if r < 0 then 0 else r;
  }

  /** The PRNG state the search starts from: the seed, or 42 for a zero
      seed; the fallback to 1 for a zero state can therefore never fire,
      and the state is never 0, the fixed point of rng_next. */
  function StartState(seed: bv64): (s: bv64)
    ensures s != 0
    ensures seed != 0 ==> s == seed
    ensures seed == 0 ==> s == 42
  {
    var s := if seed != 0 then seed else 42;
    if s == 0 then 1 else s
  }

  /** Every state the search draws, whatever the seed, is non-zero. */
  lemma StartStateLive(seed: bv64, k: nat)
    ensures XorshiftIter(StartState(seed), k) != 0
  {
    XorshiftIterNonZero(StartState(seed), k);
  }

  /** A table of nterm >= 2 has ports, so a bit can be drawn modulo their
      number. */
  lemma TotalPositive(n: int)
    requires n >= 2
    ensures TotalCount(n) > 0
  {
    assert (4 * n) * (4 * n) >= 4 * n;
  }

  /** The largest score of a trace; 0 for an empty one, where best_len
      starts. */
  function MaxOf(t: seq<int>): (r: int)
    ensures r >= 0
    ensures forall i :: 0 <= i < |t| ==> t[i] <= r
    ensures r == 0 || exists i :: 0 <= i < |t| && t[i] == r
  {
    if |t| == 0 then 0
    else if t[|t| - 1] > MaxOf(t[..|t| - 1]) then t[|t| - 1]
    else MaxOf(t[..|t| - 1])
  }

  /** One more score raises the maximum exactly when it exceeds it. */
  lemma MaxOfSnoc(t: seq<int>, x: int)
    ensures MaxOf(t + [x]) == if x > MaxOf(t) then x else MaxOf(t)
  {
    assert (t + [x])[..|t|] == t;
  }

  /** maze_randomize followed by solve: the restart of the search (and its
      first maze). */
  method Restart(m: Maze, maxc: int, rng: Rng) returns (cur: int)
    requires m.Valid()
    modifies m.normalPorts, m.nxPorts, m.nyPorts, rng
    ensures m.Ports() == RandomPorts(old(rng.state), m.totalNports)
    ensures rng.state == XorshiftIter(old(rng.state), m.totalNports)
    ensures m.Binary() && Scored(m.nterm, m.Ports(), maxc, cur)
  {
    m.Randomize(rng);
    cur := Score(m, maxc);
  }

  /** A restart while a best maze is kept: the best maze's ports are
      not the current maze's, so the restart leaves them alone. */
  method RestartBeside(m: Maze, maxc: int, rng: Rng, best: Maze?) returns (cur: int)
    requires m.Valid() && (best != null ==> best.Valid() && Apart(best, m))
    modifies m.normalPorts, m.nxPorts, m.nyPorts, rng
    ensures m.Ports() == RandomPorts(old(rng.state), m.totalNports)
    ensures rng.state == XorshiftIter(old(rng.state), m.totalNports)
    ensures m.Binary() && Scored(m.nterm, m.Ports(), maxc, cur)
    ensures best != null ==> best.Ports() == old(best.Ports())
  {
    cur := Restart(m, maxc, rng);
  }

  /** One hill-climbing step: flip the port rng_next picks modulo the
      number of ports; keep the flip when the score strictly rises and
      reset stagnation, otherwise flip it back, leaving the maze as it
      was, and count one more stagnant step. */
  method ClimbStep(m: Maze, maxc: int, rng: Rng, cur: int, stagnation: int)
    returns (bit: int, next: int, stagnant: int)
    requires m.Valid() && m.nterm >= 2 && m.Binary() && Scored(m.nterm, m.Ports(), maxc, cur)
    modifies m.normalPorts, m.nxPorts, m.nyPorts, rng
    ensures rng.state == Xorshift(old(rng.state))
    ensures 0 <= bit < m.totalNports && bit == (rng.state as int) % m.totalNports
    ensures m.Binary() && Scored(m.nterm, m.Ports(), maxc, next)
    ensures next > cur ==> m.Ports() == Flipped(old(m.Ports()), bit) && stagnant == 0
    ensures next <= cur ==> next == cur && m.Ports() == old(m.Ports()) && stagnant == stagnation + 1
  {
    TotalPositive(m.nterm);
    var x := rng.Next();
    bit := (x as int) % m.totalNports;
    m.FlipPort(bit);
    var len := Score(m, maxc);
    if len > cur {
      next, stagnant := len, 0;
    } else {
      m.FlipPort(bit);
      FlipTwice(old(m.Ports()), bit);
      next, stagnant := cur, stagnation + 1;
    }
  }

  /** The port arrays of two mazes are distinct objects. */
  predicate Apart(a: Maze, b: Maze) {
    a.normalPorts != b.normalPorts && a.normalPorts != b.nxPorts && a.normalPorts != b.nyPorts &&
    a.nxPorts != b.normalPorts && a.nxPorts != b.nxPorts && a.nxPorts != b.nyPorts &&
    a.nyPorts != b.normalPorts && a.nyPorts != b.nxPorts && a.nyPorts != b.nyPorts
  }

  /** The global-best update: a strictly better current score becomes the
      best, with a clone of the current maze. */
  method KeepBest(m: Maze, maxc: int, cur: int, best: Maze?, bestLen: int)
    returns (best': Maze?, bestLen': int)
    requires m.Valid() && Scored(m.nterm, m.Ports(), maxc, cur)
    ensures bestLen' == if cur > bestLen then cur else bestLen
    ensures cur > bestLen ==> (best' != null && fresh(best') && best'.Valid() && best'.nterm == m.nterm &&
                               best'.Ports() == m.Ports() && Apart(best', m) &&
                               fresh(best'.normalPorts) && fresh(best'.nxPorts) && fresh(best'.nyPorts))
    ensures cur <= bestLen ==> best' == best
  {
    best', bestLen' := best, bestLen;
    if cur > bestLen {
      bestLen' := cur;
      best' := m.Clone();
    }
  }

  /** The closing solve on the best maze, asking for its path: the path
      is a shortest start-to-goal walk, one state longer than the score. */
  method BestPath(best: Maze, maxc: int, bestLen: int)
    returns (path: Option<array<State>>, pathLen: int)
    requires best.Valid() && bestLen > 0 && Scored(best.nterm, best.Ports(), maxc, bestLen)
    ensures path.Some? && pathLen == bestLen + 1 && path.value.Length == pathLen
    ensures IsPath(MazeGraph(best.nterm, best.Ports(), maxc), path.value[..])
  {
    var r;
    ghost var walk;
    r, path, pathLen, walk := Solve(best, maxc, true);
    SolveScore(best.nterm, best.Ports(), maxc, r, walk);
    ScoredUnique(best.nterm, best.Ports(), maxc, bestLen, if r < 0 then 0 else r);
  }

  /** x is the score of some table of nterm n. */
  ghost predicate IsScore(n: int, maxc: int, x: int) {
    exists P :: |P| == TotalCount(n) && Scored(n, P, maxc, x)
  }

  /** A table's score is a score. */
  lemma ScoreOf(n: int, P: seq<byte>, maxc: int, x: int)
    requires |P| == TotalCount(n) && Scored(n, P, maxc, x)
    ensures IsScore(n, maxc, x)
  {
  }

  /** Every entry of a trace is the score of some table of nterm n. */
  ghost predicate ScoresReached(n: int, maxc: int, trace: seq<int>) {
    forall i :: 0 <= i < |trace| ==> IsScore(n, maxc, trace[i])
  }

  /** The score of one more table extends a trace of scores. */
  lemma ReachedSnoc(n: int, maxc: int, trace: seq<int>, x: int)
    requires ScoresReached(n, maxc, trace)
    requires IsScore(n, maxc, x)
    ensures ScoresReached(n, maxc, trace + [x])
  {
    forall i | 0 <= i < |trace + [x]|
      ensures IsScore(n, maxc, (trace + [x])[i])
    {
      if i < |trace| {
        assert (trace + [x])[i] == trace[i];
      }
    }
  }

  /** One iteration of the search loop: the climbing step, the global-best
      update, and a random restart once stagnation reaches the threshold.
      `bit` is the flipped port and `scored` is cur_len after the accept or
      undo, the value the best update compares. */
  method Iteration(m: Maze, maxc: int, rng: Rng, cur: int, stagnation: int, best: Maze?, bestLen: int)
    returns (bit: int, cur': int, stagnation': int, best': Maze?, bestLen': int, ghost scored: int)
    requires m.Valid() && m.nterm >= 2 && m.Binary() && Scored(m.nterm, m.Ports(), maxc, cur)
    requires 0 <= stagnation < RestartThreshold && bestLen >= 0 && (best == null <==> bestLen == 0)
    requires best != null ==> best.Valid() && best.nterm == m.nterm && Apart(best, m) &&
                              Scored(m.nterm, best.Ports(), maxc, bestLen)
    modifies m.normalPorts, m.nxPorts, m.nyPorts, rng
    ensures m.Binary() && Scored(m.nterm, m.Ports(), maxc, cur')
    ensures 0 <= stagnation' < RestartThreshold
    ensures 0 <= bit < m.totalNports
    ensures scored > cur ==>
              scored == cur' && stagnation' == 0 && m.Ports() == Flipped(old(m.Ports()), bit) &&
              rng.state == Xorshift(old(rng.state))
    ensures scored <= cur && stagnation + 1 < RestartThreshold ==>
              scored == cur' == cur && stagnation' == stagnation + 1 && m.Ports() == old(m.Ports()) &&
              rng.state == Xorshift(old(rng.state))
    ensures scored <= cur && stagnation + 1 == RestartThreshold ==>
              scored == cur && stagnation' == 0 &&
              m.Ports() == RandomPorts(Xorshift(old(rng.state)), m.totalNports) &&
              rng.state == XorshiftIter(Xorshift(old(rng.state)), m.totalNports)
    ensures scored >= 0 && bestLen' == if scored > bestLen then scored else bestLen
    ensures IsScore(m.nterm, maxc, scored)
    ensures best' == null <==> bestLen' == 0
    ensures best' != null ==> best'.Valid() && best'.nterm == m.nterm && Apart(best', m) &&
                              Scored(m.nterm, best'.Ports(), maxc, bestLen')
    ensures best' != best ==> fresh(best') && fresh(best'.normalPorts) && fresh(best'.nxPorts) && fresh(best'.nyPorts)
  {
    bit, cur', stagnation' := ClimbStep(m, maxc, rng, cur, stagnation);
    scored := cur';
    ScoreOf(m.nterm, m.Ports(), maxc, scored);
    best', bestLen' := KeepBest(m, maxc, cur', best, bestLen);
    if stagnation' >= RestartThreshold {
      cur' := RestartBeside(m, maxc, rng, best');
      stagnation' := 0;
    }
  }

  /** quizmaster_search. Ghost trace[i] is cur_len after the accept or
      undo of iteration i. The best length is the largest of them; the best
      maze exists exactly when that is positive, and then scores it, with
      a shortest path of it. */
  method QuizmasterSearch(nterm: int, maxCoord: int, maxIterations: int, seed: bv64)
    returns (result: QMResult, ghost trace: seq<int>)
    ensures nterm < 2 ==> result == Empty
    ensures |trace| == if nterm < 2 || maxIterations < 0 then 0 else maxIterations
    ensures ScoresReached(nterm, maxCoord, trace)
    ensures result.bestLength == MaxOf(trace)
    ensures result.bestMaze == null <==> result.bestLength == 0
    ensures result.bestMaze == null ==> result == Empty
    ensures result.bestMaze != null ==>
              (result.bestMaze.Valid() && result.bestMaze.nterm == nterm &&
               Scored(nterm, result.bestMaze.Ports(), maxCoord, result.bestLength) &&
               result.bestPath.Some? && result.bestPathLen == result.bestLength + 1 &&
               result.bestPath.value.Length == result.bestPathLen &&
               IsPath(MazeGraph(nterm, result.bestMaze.Ports(), maxCoord), result.bestPath.value[..]))
  {
    trace := [];
    if nterm < 2 {
      return Empty, trace;
    }
    var rng := new Rng(StartState(seed));
    var m := new Maze(nterm);
    var best: Maze? := null;
    var bestLen := 0;
    var stagnation := 0;
    var cur := Restart(m, maxCoord, rng);
    var iter := 0;
    while iter < maxIterations
      invariant 0 <= iter <= (if maxIterations < 0 then 0 else maxIterations) && |trace| == iter
      invariant fresh(rng) && fresh(m.normalPorts) && fresh(m.nxPorts) && fresh(m.nyPorts)
      invariant m.Valid() && m.nterm == nterm && m.Binary() && Scored(nterm, m.Ports(), maxCoord, cur)
      invariant 0 <= stagnation < RestartThreshold
      invariant ScoresReached(nterm, maxCoord, trace)
      invariant bestLen == MaxOf(trace) && (best == null <==> bestLen == 0)
      invariant best != null ==> best.Valid() && best.nterm == nterm && Apart(best, m) &&
                                 Scored(nterm, best.Ports(), maxCoord, bestLen)
    {
      ghost var scored;
      var bit;
      bit, cur, stagnation, best, bestLen, scored := Iteration(m, maxCoord, rng, cur, stagnation, best, bestLen);
      MaxOfSnoc(trace, scored);
      ReachedSnoc(nterm, maxCoord, trace, scored);
      trace := trace + [scored];
      iter := iter + 1;
    }
    if best != null {
      var path, pathLen := BestPath(best, maxCoord, bestLen);
      result := QMResult(best, bestLen, path, pathLen);
    } else {
      result := Empty;
    }
  }

  /** qmresult_free: releases the maze and the path and clears both
      pointers, keeping the lengths; a NULL result is left alone. */
  function QmresultFree(r: Option<QMResult>): (f: Option<QMResult>)
    ensures f.Some? <==> r.Some?
    ensures f.Some? ==> (f.value.bestMaze == null && f.value.bestPath == None &&
                         f.value.bestLength == r.value.bestLength &&
                         f.value.bestPathLen == r.value.bestPathLen)
  {
    match r
    case None => None
    case Some(q) => Some(q.(bestMaze := null, bestPath := None))
  }

  /** Because the pointers are cleared, freeing a result twice is the same
      as freeing it once. */
  lemma FreeTwice(r: Option<QMResult>)
    ensures QmresultFree(QmresultFree(r)) == QmresultFree(r)
  {
  }
}
