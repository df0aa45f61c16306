/** get_neighbors of solver.c: the states one port traversal away from a
    canonical state, in the order the C code emits them, and the block-level
    reading of a step that the list is proved against. */
module SolverGraph {
  import opened DivMod
  import opened MazeDefs
  import opened MazeIndex
  import opened MazeStore
  import opened SolverDefs

  /** The coordinate filter of get_neighbors: 0 <= x, y <= max_coord. */
  predicate InBounds(s: State, maxc: int) {
    0 <= s.x <= maxc && 0 <= s.y <= maxc
  }

  /** Port (sd, si) -> (dd, di) is set in block (col, row) of the maze whose
      flat table (normal ++ nx ++ ny) is P: a normal block (col, row > 0) has
      every normal port, the nx column (col == 0) only E -> E ports, the ny
      row (row == 0) only N -> N ports, and block (0, 0) none. */
  predicate BlockPort(n: int, P: seq<byte>, col: int, row: int, sd: int, si: int, dd: int, di: int)
    requires |P| == TotalCount(n)
  {
    if col > 0 && row > 0 then
      NormalInRange(n, Port(sd, si, dd, di)) &&
      (NormalIdxRange(n, Port(sd, si, dd, di)); P[NormalIdx(n, Port(sd, si, dd, di))] != 0)
    else if col == 0 && row > 0 then
      sd == TDirE && dd == TDirE && EdgeInRange(n, si, di) &&
      (EdgeIdxRange(n, si, di); P[NormalCount(n) + EdgeIdx(n, si, di)] != 0)
    else if row == 0 && col > 0 then
      sd == TDirN && dd == TDirN && EdgeInRange(n, si, di) &&
      (EdgeIdxRange(n, si, di); P[NormalCount(n) + EdgeCount(n) + EdgeIdx(n, si, di)] != 0)
    else
      false
  }

  /** Terminal (sd, si) of block (col, row) has a set port to a terminal whose
      canonical state is t. */
  ghost predicate Exits(n: int, P: seq<byte>, col: int, row: int, sd: int, si: int, t: State)
    requires |P| == TotalCount(n)
  {
    exists dd :: 0 <= dd < 4 && ToCanonical(col, row, dd, t.idx) == t && BlockPort(n, P, col, row, sd, si, dd, t.idx)
  }

  /** One port traversal from s to t: s is the E terminal of its own block
      or the W terminal of the block east of it (an N state: the N terminal
      of its block or the S terminal of the block north of it), and that
      block has a set port to a terminal naming t. By CanonicalPreimage
      these are the only two terminals that name s. */
  ghost predicate Step(n: int, P: seq<byte>, s: State, t: State)
    requires |P| == TotalCount(n)
  {
    (s.dir == CDirE && (Exits(n, P, s.x, s.y, TDirE, s.idx, t) || Exits(n, P, s.x + 1, s.y, TDirW, s.idx, t))) ||
    (s.dir == CDirN && (Exits(n, P, s.x, s.y, TDirN, s.idx, t) || Exits(n, P, s.x, s.y + 1, TDirS, s.idx, t)))
  }

  /** The normal-block loop of get_neighbors over dst < k: from source
      terminal src = sd*n + si of block (col, row), each set port to dst adds
      the canonical state of terminal (dst / n, dst % n) when it is in
      bounds. */
  function NormalRow(n: int, P: seq<byte>, maxc: int, col: int, row: int, src: int, k: nat): (r: seq<State>)
    requires n > 0 && 0 <= src < 4 * n && k <= 4 * n && |P| == TotalCount(n)
    ensures |r| <= k
    ensures forall i :: 0 <= i < |r| ==> IsCanonical(n, r[i]) && InBounds(r[i], maxc)
  {
    if k == 0 then [] else
    var dst := k - 1;
    MixRange(src, 4 * n, dst, 4 * n);
    MixSplit(dst, 4, n);
    var ns := ToCanonical(col, row, dst / n, dst % n);
    var prev := NormalRow(n, P, maxc, col, row, src, k - 1);
    if P[src * (4 * n) + dst] != 0 && InBounds(ns, maxc) then prev + [ns] else prev
  }

  /** Destination dst of row src contributes t. */
  predicate RowHit(n: int, P: seq<byte>, maxc: int, col: int, row: int, src: int, dst: int, t: State)
    requires n > 0 && 0 <= src < 4 * n && 0 <= dst < 4 * n && |P| == TotalCount(n)
  {
    MixRange(src, 4 * n, dst, 4 * n);
    P[src * (4 * n) + dst] != 0 && ToCanonical(col, row, dst / n, dst % n) == t && InBounds(t, maxc)
  }

  lemma {:induction false} NormalRowMem(n: int, P: seq<byte>, maxc: int, col: int, row: int, src: int, k: nat, t: State)
    requires n > 0 && 0 <= src < 4 * n && k <= 4 * n && |P| == TotalCount(n)
    ensures t in NormalRow(n, P, maxc, col, row, src, k) <==>
              exists dst :: 0 <= dst < k && RowHit(n, P, maxc, col, row, src, dst, t)
  {
    if k > 0 {
      NormalRowMem(n, P, maxc, col, row, src, k - 1, t);
      if RowHit(n, P, maxc, col, row, src, k - 1, t) {
        assert t in NormalRow(n, P, maxc, col, row, src, k);
      }
    }
  }

  /** A state the normal row lists is one the terminal has a set port to. */
  lemma NormalRowSound(n: int, P: seq<byte>, maxc: int, col: int, row: int, sd: int, si: int, src: int, t: State)
    requires |P| == TotalCount(n) && col > 0 && row > 0 && 0 <= sd < 4 && 0 <= si < n
    requires src == sd * n + si && 0 <= src < 4 * n
    requires exists dst :: 0 <= dst < 4 * n && RowHit(n, P, maxc, col, row, src, dst, t)
    ensures Exits(n, P, col, row, sd, si, t) && InBounds(t, maxc)
  {
    var dst :| 0 <= dst < 4 * n && RowHit(n, P, maxc, col, row, src, dst, t);
    NormalIdxRow(n, sd, si, dst);
    assert ToCanonical(col, row, dst / n, t.idx) == t;
    assert BlockPort(n, P, col, row, sd, si, dst / n, t.idx);
  }

  /** A state the terminal has a set port to, in bounds, is listed. */
  lemma NormalRowComplete(n: int, P: seq<byte>, maxc: int, col: int, row: int, sd: int, si: int, src: int, t: State)
    requires |P| == TotalCount(n) && col > 0 && row > 0 && 0 <= sd < 4 && 0 <= si < n
    requires src == sd * n + si && 0 <= src < 4 * n
    requires Exits(n, P, col, row, sd, si, t) && InBounds(t, maxc)
    ensures exists dst :: 0 <= dst < 4 * n && RowHit(n, P, maxc, col, row, src, dst, t)
  {
    var dd :| 0 <= dd < 4 && ToCanonical(col, row, dd, t.idx) == t && BlockPort(n, P, col, row, sd, si, dd, t.idx);
    var dst := dd * n + t.idx;
    MixRange(dd, 4, t.idx, n);
    MixDecode(dd, t.idx, n);
    NormalIdxRow(n, sd, si, dst);
    assert RowHit(n, P, maxc, col, row, src, dst, t);
  }

  /** The normal row of terminal (sd, si) in normal block (col, row) lists
      exactly the in-bounds states that terminal has a set port to. */
  lemma NormalRowExits(n: int, P: seq<byte>, maxc: int, col: int, row: int, sd: int, si: int, t: State)
    requires |P| == TotalCount(n) && col > 0 && row > 0 && 0 <= sd < 4 && 0 <= si < n
    ensures 0 <= sd * n + si < 4 * n
    ensures t in NormalRow(n, P, maxc, col, row, sd * n + si, 4 * n) <==>
              Exits(n, P, col, row, sd, si, t) && InBounds(t, maxc)
  {
    MixRange(sd, 4, si, n);
    var src := sd * n + si;
    NormalRowMem(n, P, maxc, col, row, src, 4 * n, t);
    if t in NormalRow(n, P, maxc, col, row, src, 4 * n) {
      NormalRowSound(n, P, maxc, col, row, sd, si, src, t);
    }
    if Exits(n, P, col, row, sd, si, t) && InBounds(t, maxc) {
      NormalRowComplete(n, P, maxc, col, row, sd, si, src, t);
    }
  }

  /** The nx or ny loop of get_neighbors over dj < k: each set edge port
      from si to dj != si adds state (col, row, dir, dj); off is the start of
      the nx table (normal_nports) or of the ny table in the flat index. */
  function EdgeRow(n: int, P: seq<byte>, off: int, si: int, col: int, row: int, dir: int, k: nat): (r: seq<State>)
    requires 0 <= si < n && k <= n && 0 <= off && off + EdgeCount(n) <= |P|
    ensures |r| <= k
    ensures forall i :: 0 <= i < |r| ==> r[i].x == col && r[i].y == row && r[i].dir == dir && 0 <= r[i].idx < n
  {
    if k == 0 then [] else
    var dj := k - 1;
    var prev := EdgeRow(n, P, off, si, col, row, dir, k - 1);
    if dj == si then prev
    else
      EdgeIdxRange(n, si, dj);
      if P[off + EdgeIdx(n, si, dj)] != 0 then prev + [State(col, row, dir, dj)] else prev
  }

  lemma {:induction false} EdgeRowMem(n: int, P: seq<byte>, off: int, si: int, col: int, row: int, dir: int, k: nat, t: State)
    requires 0 <= si < n && k <= n && 0 <= off && off + EdgeCount(n) <= |P|
    ensures t in EdgeRow(n, P, off, si, col, row, dir, k) <==>
              t.x == col && t.y == row && t.dir == dir && 0 <= t.idx < k && t.idx != si &&
              (EdgeIdxRange(n, si, t.idx); P[off + EdgeIdx(n, si, t.idx)] != 0)
  {
    if k > 0 {
      EdgeRowMem(n, P, off, si, col, row, dir, k - 1, t);
    }
  }

  /** The nx block (0, row) links E terminal si exactly to the E terminals
      its nx row lists. */
  lemma NxExits(n: int, P: seq<byte>, row: int, si: int, t: State)
    requires |P| == TotalCount(n) && row > 0 && 0 <= si < n
    ensures t in EdgeRow(n, P, NormalCount(n), si, 0, row, CDirE, n) <==> Exits(n, P, 0, row, TDirE, si, t)
  {
    EdgeRowMem(n, P, NormalCount(n), si, 0, row, CDirE, n, t);
    if t in EdgeRow(n, P, NormalCount(n), si, 0, row, CDirE, n) {
      assert ToCanonical(0, row, TDirE, t.idx) == t && BlockPort(n, P, 0, row, TDirE, si, TDirE, t.idx);
    }
  }

  /** The ny block (col, 0) links N terminal si exactly to the N terminals
      its ny row lists. */
  lemma NyExits(n: int, P: seq<byte>, col: int, si: int, t: State)
    requires |P| == TotalCount(n) && col > 0 && 0 <= si < n
    ensures t in EdgeRow(n, P, NormalCount(n) + EdgeCount(n), si, col, 0, CDirN, n) <==>
              Exits(n, P, col, 0, TDirN, si, t)
  {
    EdgeRowMem(n, P, NormalCount(n) + EdgeCount(n), si, col, 0, CDirN, n, t);
    if t in EdgeRow(n, P, NormalCount(n) + EdgeCount(n), si, col, 0, CDirN, n) {
      assert ToCanonical(col, 0, TDirN, t.idx) == t && BlockPort(n, P, col, 0, TDirN, si, TDirN, t.idx);
    }
  }

  /** A block that is neither normal nor an edge block of the terminal's
      direction has no port from that terminal. */
  lemma NoExits(n: int, P: seq<byte>, col: int, row: int, sd: int, si: int, t: State)
    requires |P| == TotalCount(n) && !(col > 0 && row > 0)
    requires col == 0 && row > 0 ==> sd != TDirE
    requires row == 0 && col > 0 ==> sd != TDirN
    ensures !Exits(n, P, col, row, sd, si, t)
  {
  }

  /** The first half of get_neighbors: the block s belongs to, from its E
      terminal for an E state and its N terminal otherwise; the nx column
      (x == 0) and the ny row (y == 0) replace the normal block, and an E
      state on y == 0 or an N state on x == 0 gets nothing. */
  function NearSide(n: int, P: seq<byte>, maxc: int, s: State): (r: seq<State>)
    requires |P| == TotalCount(n) && IsCanonical(n, s)
    ensures |r| <= 4 * n
    ensures forall i :: 0 <= i < |r| ==> IsCanonical(n, r[i])
  {
    MixRange(TDirE, 4, s.idx, n);
    MixRange(TDirN, 4, s.idx, n);
    if s.dir == CDirE then
      if s.y > 0 then
        if s.x > 0 then NormalRow(n, P, maxc, s.x, s.y, TDirE * n + s.idx, 4 * n)
        else EdgeRow(n, P, NormalCount(n), s.idx, 0, s.y, CDirE, n)
      else []
    else
      if s.x > 0 then
        if s.y > 0 then NormalRow(n, P, maxc, s.x, s.y, TDirN * n + s.idx, 4 * n)
        else EdgeRow(n, P, NormalCount(n) + EdgeCount(n), s.idx, s.x, 0, CDirN, n)
      else []
  }

  /** The second half of get_neighbors: the normal block across the
      boundary, from its W terminal (east of an E state) or its S terminal
      (north of an N state), when that block is a normal block. */
  function FarSide(n: int, P: seq<byte>, maxc: int, s: State): (r: seq<State>)
    requires |P| == TotalCount(n) && IsCanonical(n, s)
    ensures |r| <= 4 * n
    ensures forall i :: 0 <= i < |r| ==> IsCanonical(n, r[i])
  {
    MixRange(TDirW, 4, s.idx, n);
    MixRange(TDirS, 4, s.idx, n);
    if s.dir == CDirE then
      if s.x + 1 > 0 && s.y > 0 then NormalRow(n, P, maxc, s.x + 1, s.y, TDirW * n + s.idx, 4 * n) else []
    else
      if s.x > 0 && s.y + 1 > 0 then NormalRow(n, P, maxc, s.x, s.y + 1, TDirS * n + s.idx, 4 * n) else []
  }

  /** get_neighbors: the list the C code writes to nbrs, at most 8 * nterm
      states, all canonical. */
  function Neighbors(n: int, P: seq<byte>, maxc: int, s: State): (r: seq<State>)
    requires |P| == TotalCount(n) && IsCanonical(n, s)
    ensures |r| <= 8 * n
    ensures forall i :: 0 <= i < |r| ==> IsCanonical(n, r[i])
  {
    NearSide(n, P, maxc, s) + FarSide(n, P, maxc, s)
  }

  /** The first half of the list: the set ports of the block s belongs to. */
  lemma NearStep(n: int, P: seq<byte>, maxc: int, s: State, t: State)
    requires |P| == TotalCount(n) && IsCanonical(n, s) && InBounds(s, maxc)
    ensures s.dir == CDirE ==>
              (t in NearSide(n, P, maxc, s) <==> Exits(n, P, s.x, s.y, TDirE, s.idx, t) && InBounds(t, maxc))
    ensures s.dir == CDirN ==>
              (t in NearSide(n, P, maxc, s) <==> Exits(n, P, s.x, s.y, TDirN, s.idx, t) && InBounds(t, maxc))
  {
    var i := s.idx;
    if s.dir == CDirE {
      if s.y > 0 {
        if s.x > 0 {
          NormalRowExits(n, P, maxc, s.x, s.y, TDirE, i, t);
        } else {
          NxExits(n, P, s.y, i, t);
        }
      } else {
        NoExits(n, P, s.x, s.y, TDirE, i, t);
      }
    } else {
      if s.x > 0 {
        if s.y > 0 {
          NormalRowExits(n, P, maxc, s.x, s.y, TDirN, i, t);
        } else {
          NyExits(n, P, s.x, i, t);
        }
      } else {
        NoExits(n, P, s.x, s.y, TDirN, i, t);
      }
    }
  }

  /** The second half: the set ports of the block across the boundary. */
  lemma FarStep(n: int, P: seq<byte>, maxc: int, s: State, t: State)
    requires |P| == TotalCount(n) && IsCanonical(n, s) && InBounds(s, maxc)
    ensures s.dir == CDirE ==>
              (t in FarSide(n, P, maxc, s) <==> Exits(n, P, s.x + 1, s.y, TDirW, s.idx, t) && InBounds(t, maxc))
    ensures s.dir == CDirN ==>
              (t in FarSide(n, P, maxc, s) <==> Exits(n, P, s.x, s.y + 1, TDirS, s.idx, t) && InBounds(t, maxc))
  {
    var i := s.idx;
    if s.dir == CDirE {
      if s.y > 0 {
        NormalRowExits(n, P, maxc, s.x + 1, s.y, TDirW, i, t);
      } else {
        NoExits(n, P, s.x + 1, s.y, TDirW, i, t);
      }
    } else {
      if s.x > 0 {
        NormalRowExits(n, P, maxc, s.x, s.y + 1, TDirS, i, t);
      } else {
        NoExits(n, P, s.x, s.y + 1, TDirS, i, t);
      }
    }
  }

  /** The neighbour list of an in-bounds canonical state is exactly the set
      of in-bounds states one port traversal away. */
  lemma NeighborsStep(n: int, P: seq<byte>, maxc: int, s: State, t: State)
    requires |P| == TotalCount(n) && IsCanonical(n, s) && InBounds(s, maxc)
    ensures t in Neighbors(n, P, maxc, s) <==> Step(n, P, s, t) && InBounds(t, maxc)
  {
    NearStep(n, P, maxc, s, t);
    FarStep(n, P, maxc, s, t);
  }

  /** Neighbours of a state in the box [0, b]^2 stay in the box when b is at
      least max_coord: normal rows are filtered row max_coord, and the nx and
      ny rows keep the state's own row or column. */
  lemma NeighborsBox(n: int, P: seq<byte>, maxc: int, b: int, s: State)
    requires |P| == TotalCount(n) && IsCanonical(n, s) && InBounds(s, b) && maxc <= b
    ensures forall t :: t in Neighbors(n, P, maxc, s) ==> InBounds(t, b)
  {
    var r := Neighbors(n, P, maxc, s);
    forall t | t in r
      ensures InBounds(t, b)
    {
      var i := s.idx;
      if s.dir == CDirE {
        if s.y > 0 && s.x == 0 {
          EdgeRowMem(n, P, NormalCount(n), i, 0, s.y, CDirE, n, t);
        }
      } else if s.x > 0 && s.y == 0 {
        EdgeRowMem(n, P, NormalCount(n) + EdgeCount(n), i, s.x, 0, CDirN, n, t);
      }
    }
  }

  /** One normal-block loop of get_neighbors, appending to nbrs from cnt0. */
  method ScanNormal(m: Maze, nbrs: array<State>, cnt0: int, maxc: int, col: int, row: int, src: int)
    returns (cnt: int)
    requires m.Valid() && m.nterm > 0 && 0 <= src < 4 * m.nterm
    requires 0 <= cnt0 && cnt0 + 4 * m.nterm <= nbrs.Length
    modifies nbrs
    ensures cnt0 <= cnt <= nbrs.Length
    ensures nbrs[..cnt] == old(nbrs[..cnt0]) + NormalRow(m.nterm, m.Ports(), maxc, col, row, src, 4 * m.nterm)
  {
    var n := m.nterm;
    var n4 := 4 * n;
    ghost var P := m.Ports();
    ghost var head := nbrs[..cnt0];
    cnt := cnt0;
    for dst := 0 to n4
      invariant cnt0 <= cnt <= cnt0 + dst
      invariant nbrs[..cnt] == head + NormalRow(n, P, maxc, col, row, src, dst)
    {
      MixRange(src, n4, dst, n4);
      if m.normalPorts[src * n4 + dst] == 0 {
        continue;
      }
      var ns := ToCanonical(col, row, dst / n, dst % n);
      if ns.x >= 0 && ns.y >= 0 && ns.x <= maxc && ns.y <= maxc {
        nbrs[cnt] := ns;
        cnt := cnt + 1;
      }
    }
  }

  /** The nx loop of get_neighbors (block (0, row), E terminal si),
      appending to nbrs from cnt0. */
  method ScanNx(m: Maze, nbrs: array<State>, cnt0: int, si: int, row: int) returns (cnt: int)
    requires m.Valid() && 0 <= si < m.nterm
    requires 0 <= cnt0 && cnt0 + m.nterm <= nbrs.Length
    modifies nbrs
    ensures cnt0 <= cnt <= nbrs.Length
    ensures nbrs[..cnt] == old(nbrs[..cnt0]) + EdgeRow(m.nterm, m.Ports(), m.normalNports, si, 0, row, CDirE, m.nterm)
  {
    var n := m.nterm;
    ghost var P := m.Ports();
    ghost var head := nbrs[..cnt0];
    cnt := cnt0;
    for dj := 0 to n
      invariant cnt0 <= cnt <= cnt0 + dj
      invariant nbrs[..cnt] == head + EdgeRow(n, P, m.normalNports, si, 0, row, CDirE, dj)
    {
      if dj == si {
        continue;
      }
      var adj := if dj < si then dj else dj - 1;
      EdgeIdxRange(n, si, dj);
      assert si * (n - 1) + adj == EdgeIdx(n, si, dj);
      assert m.nxPorts[si * (n - 1) + adj] == P[m.normalNports + EdgeIdx(n, si, dj)];
      if m.nxPorts[si * (n - 1) + adj] != 0 {
        nbrs[cnt] := State(0, row, CDirE, dj);
        cnt := cnt + 1;
      }
    }
  }

  /** The ny loop of get_neighbors (block (col, 0), N terminal si),
      appending to nbrs from cnt0. */
  method ScanNy(m: Maze, nbrs: array<State>, cnt0: int, si: int, col: int) returns (cnt: int)
    requires m.Valid() && 0 <= si < m.nterm
    requires 0 <= cnt0 && cnt0 + m.nterm <= nbrs.Length
    modifies nbrs
    ensures cnt0 <= cnt <= nbrs.Length
    ensures nbrs[..cnt] == old(nbrs[..cnt0]) +
              EdgeRow(m.nterm, m.Ports(), m.normalNports + m.nxNports, si, col, 0, CDirN, m.nterm)
  {
    var n := m.nterm;
    ghost var P := m.Ports();
    ghost var head := nbrs[..cnt0];
    cnt := cnt0;
    for dj := 0 to n
      invariant cnt0 <= cnt <= cnt0 + dj
      invariant nbrs[..cnt] == head + EdgeRow(n, P, m.normalNports + m.nxNports, si, col, 0, CDirN, dj)
    {
      if dj == si {
        continue;
      }
      var adj := if dj < si then dj else dj - 1;
      EdgeIdxRange(n, si, dj);
      assert si * (n - 1) + adj == EdgeIdx(n, si, dj);
      assert m.nyPorts[si * (n - 1) + adj] == P[m.normalNports + m.nxNports + EdgeIdx(n, si, dj)];
      if m.nyPorts[si * (n - 1) + adj] != 0 {
        nbrs[cnt] := State(col, 0, CDirN, dj);
        cnt := cnt + 1;
      }
    }
  }

  /** The first block of get_neighbors, written to nbrs from index 0. */
  method ScanNear(m: Maze, s: State, maxc: int, nbrs: array<State>) returns (cnt: int)
    requires m.Valid() && IsCanonical(m.nterm, s) && nbrs.Length >= 8 * m.nterm
    modifies nbrs
    ensures 0 <= cnt <= 4 * m.nterm && nbrs[..cnt] == NearSide(m.nterm, m.Ports(), maxc, s)
  {
    var n := m.nterm;
    MixRange(TDirE, 4, s.idx, n);
    MixRange(TDirN, 4, s.idx, n);
    cnt := 0;
    if s.dir == CDirE {
      if s.y > 0 {
        if s.x > 0 {
          cnt := ScanNormal(m, nbrs, cnt, maxc, s.x, s.y, TDirE * n + s.idx);
        } else {
          cnt := ScanNx(m, nbrs, cnt, s.idx, s.y);
        }
      }
    } else {
      if s.x > 0 {
        if s.y > 0 {
          cnt := ScanNormal(m, nbrs, cnt, maxc, s.x, s.y, TDirN * n + s.idx);
        } else {
          cnt := ScanNy(m, nbrs, cnt, s.idx, s.x);
        }
      }
    }
  }

  /** The second block of get_neighbors, appended to nbrs from cnt0. */
  method ScanFar(m: Maze, s: State, maxc: int, nbrs: array<State>, cnt0: int) returns (cnt: int)
    requires m.Valid() && IsCanonical(m.nterm, s) && 0 <= cnt0 <= 4 * m.nterm && nbrs.Length >= 8 * m.nterm
    modifies nbrs
    ensures cnt0 <= cnt <= cnt0 + 4 * m.nterm
    ensures nbrs[..cnt] == old(nbrs[..cnt0]) + FarSide(m.nterm, m.Ports(), maxc, s)
  {
    var n := m.nterm;
    MixRange(TDirW, 4, s.idx, n);
    MixRange(TDirS, 4, s.idx, n);
    cnt := cnt0;
    if s.dir == CDirE {
      if s.x + 1 > 0 && s.y > 0 {
        cnt := ScanNormal(m, nbrs, cnt, maxc, s.x + 1, s.y, TDirW * n + s.idx);
      }
    } else {
      if s.x > 0 && s.y + 1 > 0 {
        cnt := ScanNormal(m, nbrs, cnt, maxc, s.x, s.y + 1, TDirS * n + s.idx);
      }
    }
  }

  /** get_neighbors: fills nbrs with the neighbour list of s and returns its
      length, at most 8 * nterm, the size of the buffer solve allocates. */
  method GetNeighbors(m: Maze, s: State, maxc: int, nbrs: array<State>) returns (cnt: int)
    requires m.Valid() && IsCanonical(m.nterm, s) && nbrs.Length >= 8 * m.nterm
    modifies nbrs
    ensures 0 <= cnt <= 8 * m.nterm && nbrs[..cnt] == Neighbors(m.nterm, m.Ports(), maxc, s)
  {
    cnt := ScanNear(m, s, maxc, nbrs);
    cnt := ScanFar(m, s, maxc, nbrs, cnt);
  }
}
