/** maze_fprint as the C code runs it: a `first` flag and nested loops over
    the terminals that append one "T->T" entry per set port, proved to write
    exactly the line that MazeText describes. */
module MazePrint {
  import opened Decimal
  import opened DivMod
  import opened MazeDefs
  import opened MazeIndex
  import opened MazeStore
  import opened MazeText

  /** What a group has printed after the entries ts: nothing yet, or a blank
      and the entries separated by ", ". */
  function PartialText(ts: seq<Port>): string
    requires ValidTokens(ts)
  {
    if ts == [] then "" else " " + Join(ts)
  }

  lemma ValidTokensPrefix(ts: seq<Port>, p: Port)
    requires ValidTokens(ts + [p])
    ensures ValidTokens(ts) && ValidToken(p)
  {
    assert (ts + [p])[|ts|] == p;
    forall i | 0 <= i < |ts|
      ensures ValidToken(ts[i])
    {
      assert (ts + [p])[i] == ts[i];
    }
  }

  lemma SepAssoc(x: string, sep: string, z: string, w: string)
    ensures x + sep + (z + sep + w) == (x + sep + z) + sep + w
  {
  }

  lemma BlankAssoc(a: string, t: string)
    ensures " " + (a + ", " + t) == " " + a + "," + " " + t
  {
  }

  lemma ValidTokensTail(ts: seq<Port>, p: Port)
    requires |ts| > 0 && ValidTokens(ts + [p])
    ensures (ts + [p])[0] == ts[0] && (ts + [p])[1..] == ts[1..] + [p]
    ensures ValidTokens(ts[1..] + [p])
  {
    var u := ts + [p];
    assert u[1..] == ts[1..] + [p];
    forall i | 0 <= i < |u[1..]|
      ensures ValidToken(u[1..][i])
    {
      assert u[1..][i] == u[i + 1];
    }
  }

  /** Appending an entry to a non-empty list appends ", " and its text. */
  lemma {:induction false} JoinSnoc(ts: seq<Port>, p: Port)
    requires |ts| > 0 && ValidTokens(ts + [p])
    ensures ValidTokens(ts) && ValidToken(p)
    ensures Join(ts + [p]) == Join(ts) + ", " + TokText(p)
    decreases |ts|
  {
    ValidTokensPrefix(ts, p);
    var u := ts + [p];
    if |ts| == 1 {
      assert u[0] == ts[0];
      assert u[1..] == [p];
    } else {
      ValidTokensTail(ts, p);
      JoinSnoc(ts[1..], p);
      SepAssoc(TokText(ts[0]), ", ", Join(ts[1..]), TokText(p));
    }
  }

  /** `fprintf(fp, "%s %s%d->%s%d", first ? "" : ",", ...)` extends what
      the group has printed by one entry. */
  lemma PartialSnoc(ts: seq<Port>, p: Port)
    requires ValidTokens(ts + [p])
    ensures ValidTokens(ts) && ValidToken(p)
    ensures PartialText(ts + [p]) == PartialText(ts) + (if ts == [] then "" else ",") + " " + TokText(p)
  {
    ValidTokensPrefix(ts, p);
    if ts == [] {
      PartialFirst(ts, p);
    } else {
      PartialNext(ts, p);
    }
  }

  lemma PartialFirst(ts: seq<Port>, p: Port)
    requires ts == [] && ValidToken(p)
    ensures ValidTokens(ts + [p]) && PartialText(ts + [p]) == " " + TokText(p)
  {
    assert ts + [p] == [p];
  }

  lemma PartialNext(ts: seq<Port>, p: Port)
    requires ts != [] && ValidTokens(ts + [p])
    ensures ValidTokens(ts) && ValidToken(p)
    ensures PartialText(ts + [p]) == PartialText(ts) + "," + " " + TokText(p)
  {
    JoinSnoc(ts, p);
    BlankAssoc(Join(ts), TokText(p));
  }

  /** What one set port adds to a group: the entry, after "," unless it is
      the first, and `first = 0`. */
  function Emit(out: (string, bool), p: Port): (r: (string, bool))
    requires ValidToken(p)
    ensures !r.1 && |r.0| > |out.0|
  {
    (out.0 + (if out.1 then "" else ",") + " " + TokText(p), false)
  }

  /** Emitting the entries one at a time writes their PartialText, and the
      flag tells whether there was none. */
  lemma EmitSnoc(ts: seq<Port>, p: Port)
    requires ValidTokens(ts + [p])
    ensures ValidTokens(ts) && ValidToken(p)
    ensures Emit((PartialText(ts), ts == []), p) == (PartialText(ts + [p]), ts + [p] == [])
  {
    PartialSnoc(ts, p);
    assert (ts + [p])[|ts|] == p;
  }

  /** One port further, a fold that has written the PartialText of ts still
      writes that of the list it has grown to. */
  lemma FoldStep(prev: (string, bool), ts: seq<Port>, p: Port, isSet: bool,
                 cur: (string, bool), curTs: seq<Port>)
    requires ValidTokens(ts) && ValidTokens(curTs) && prev == (PartialText(ts), ts == [])
    requires isSet ==> ValidToken(p) && cur == Emit(prev, p) && curTs == ts + [p]
    requires !isSet ==> cur == prev && curTs == ts
    ensures cur == (PartialText(curTs), curTs == [])
  {
    if isSet {
      EmitSnoc(ts, p);
    }
  }

  /** The body of `if (port) { fprintf(...); first = 0; }`. */
  method PrintEntry(g0: string, first0: bool, p: Port) returns (g: string, first: bool)
    requires ValidToken(p)
    ensures (g, first) == Emit((g0, first0), p)
  {
    g := g0 + (if first0 then "" else ",") + " " + TokText(p);
    first := false;
  }

  /** The closing `if (first) fprintf(fp, " (none)");` */
  method CloseGroup(g0: string, first: bool, ghost ts: seq<Port>) returns (g: string)
    requires ValidTokens(ts) && g0 == PartialText(ts) && (first <==> ts == [])
    ensures g == GroupText(ts)
  {
    g := g0;
    if first {
      g := g + " (none)";
    }
  }

  // ---------------------------------------------------------------------
  // The normal group
  // ---------------------------------------------------------------------

  /** a * b by repeated addition, for b >= 0: the loop cursors below are
      written with it so that the loops' proofs stay linear. */
  function Times(a: int, b: int): int
    decreases b
  {
    if b <= 0 then 0 else Times(a, b - 1) + a
  }

  lemma {:induction false} TimesIsMul(a: int, b: int)
    requires b >= 0
    ensures Times(a, b) == a * b
    decreases b
  {
    if b > 0 {
      TimesIsMul(a, b - 1);
    }
  }

  /** The flat index the four normal loops are at before port
      (sd, si) -> (dd, di); past the last destination it is the next one. */
  function NormalCursor(n: int, sd: int, si: int, dd: int, di: int): int {
    Times(4 * n, Times(n, sd) + si) + Times(n, dd) + di
  }

  /** The flat index the normal loops are at before source (sd, si): each
      source terminal owns 4n consecutive ports. */
  function SourceCursor(n: int, sd: int, si: int): int {
    Times(4 * n, Times(n, sd) + si)
  }

  /** The cursor is normal_idx of the port it is at. */
  lemma NormalCursorIdx(n: int, sd: int, si: int, dd: int, di: int)
    requires n >= 0 && sd >= 0 && si >= 0 && dd >= 0
    ensures NormalCursor(n, sd, si, dd, di) == NormalIdx(n, Port(sd, si, dd, di))
  {
    TimesIsMul(n, sd);
    TimesIsMul(n, dd);
    MulMono(0, sd, n);
    TimesIsMul(4 * n, sd * n + si);
    assert Times(n, sd) + si == sd * n + si;
    assert (sd * n + si) * (4 * n) == 4 * n * (sd * n + si);
  }

  /** What the normal loops have printed, and the first flag, once the
      first k ports are behind them: a fold of Emit over the set ones. */
  ghost function NormalOut(n: int, P: seq<byte>, k: nat): (string, bool)
    requires n >= 0 && k <= NormalCount(n) <= |P|
    decreases k
  {
    if k == 0 then ("", true)
    else if P[k - 1] != 0 then Emit(NormalOut(n, P, k - 1), NormalDecode(n, k - 1))
    else NormalOut(n, P, k - 1)
  }

  /** One port further, the list grows by that port when it is set. */
  lemma NormalSoFarNext(n: int, P: seq<byte>, k: nat)
    requires n >= 0 && 0 < k <= NormalCount(n) <= |P|
    ensures var ts := NormalTokensUpTo(n, P, k - 1);
            NormalTokensUpTo(n, P, k) == if P[k - 1] != 0 then ts + [NormalDecode(n, k - 1)] else ts
  {
    assert NormalTokensUpTo(n, P, k - 1) + [] == NormalTokensUpTo(n, P, k - 1);
  }

  /** The fold writes the PartialText of the set ports it has passed. */
  lemma {:induction false} NormalOutText(n: int, P: seq<byte>, k: nat)
    requires n >= 0 && k <= NormalCount(n) <= |P|
    ensures NormalOut(n, P, k) == (PartialText(NormalTokensUpTo(n, P, k)), NormalTokensUpTo(n, P, k) == [])
    decreases k
  {
    if k > 0 {
      NormalOutText(n, P, k - 1);
      NormalSoFarNext(n, P, k);
      var p := NormalDecode(n, k - 1);
      assert ValidToken(p);
      var isSet := P[k - 1] != 0;
      var prev, cur := NormalOut(n, P, k - 1), NormalOut(n, P, k);
      assert isSet ==> cur == Emit(prev, p);
      assert !isSet ==> cur == prev;
      FoldStep(prev, NormalTokensUpTo(n, P, k - 1), p, isSet, cur, NormalTokensUpTo(n, P, k));
    }
  }

  /** What the normal loops keep once the first k ports are behind them. */
  ghost predicate NormalPrinted(n: int, P: seq<byte>, k: int, g: string, first: bool) {
    n > 0 && |P| == TotalCount(n) && 0 <= k <= NormalCount(n) && (g, first) == NormalOut(n, P, k)
  }

  /** One more port passed: its entry is emitted when it is set. */
  lemma NormalStep(n: int, P: seq<byte>, k: nat, p: Port)
    requires n >= 0 && k < NormalCount(n) <= |P|
    requires NormalInRange(n, p) && NormalIdx(n, p) == k
    ensures P[k] != 0 ==> NormalOut(n, P, k + 1) == Emit(NormalOut(n, P, k), p)
    ensures P[k] == 0 ==> NormalOut(n, P, k + 1) == NormalOut(n, P, k)
  {
    NormalDecodeIdx(n, p);
  }

  /** The cursor walks the flat index: past the last destination terminal
      of a direction comes the next direction, past the last direction the
      next source, past the last source terminal of a direction the next
      direction, and past all of them the end of the block. */
  lemma NormalRunCarry(n: int, sd: int, si: int, dd: int)
    requires dd >= 0
    ensures NormalCursor(n, sd, si, dd, n) == NormalCursor(n, sd, si, dd + 1, 0)
  {
  }

  lemma SourceCarry(n: int, sd: int, si: int)
    requires n >= 0 && sd >= 0 && si >= 0
    ensures NormalCursor(n, sd, si, 0, 0) == SourceCursor(n, sd, si)
    ensures NormalCursor(n, sd, si, 4, 0) == SourceCursor(n, sd, si + 1)
  {
    TimesIsMul(n, 4);
    TimesIsMul(n, sd);
    MulMono(0, sd, n);
    assert Times(4 * n, Times(n, sd) + si + 1) == Times(4 * n, Times(n, sd) + si) + 4 * n;
  }

  lemma DirectionCarry(n: int, sd: int)
    requires n >= 0 && sd >= 0
    ensures SourceCursor(n, sd, n) == SourceCursor(n, sd + 1, 0)
    ensures SourceCursor(n, 0, 0) == 0 && SourceCursor(n, 4, 0) == NormalCount(n)
  {
    TimesIsMul(n, 4);
    TimesIsMul(4 * n, 4 * n);
  }

  /** The body of the innermost normal loop, at port (sd, si) -> (dd, di). */
  method PrintNormalPort(m: Maze, sd: int, si: int, dd: int, di: int, g0: string, first0: bool, ghost P: seq<byte>)
    returns (g: string, first: bool)
    requires m.Valid() && P == m.Ports() && NormalInRange(m.nterm, Port(sd, si, dd, di))
    requires NormalPrinted(m.nterm, P, NormalCursor(m.nterm, sd, si, dd, di), g0, first0)
    ensures NormalPrinted(m.nterm, P, NormalCursor(m.nterm, sd, si, dd, di + 1), g, first)
  {
    var n := m.nterm;
    ghost var k := NormalCursor(n, sd, si, dd, di);
    ghost var k' := NormalCursor(n, sd, si, dd, di + 1);
    assert k' == k + 1;
    NormalCursorIdx(n, sd, si, dd, di);
    NormalIdxRange(n, Port(sd, si, dd, di));
    NormalStep(n, P, k, Port(sd, si, dd, di));
    var v := m.NormalPort(sd, si, dd, di);
    assert v == P[k];
    g, first := g0, first0;
    if v != 0 {
      g, first := PrintEntry(g, first, Port(sd, si, dd, di));
    }
  }

  /** The innermost normal loop, over destination terminals di of one
      destination direction dd. */
  method PrintNormalRun(m: Maze, sd: int, si: int, dd: int, g0: string, first0: bool, ghost P: seq<byte>)
    returns (g: string, first: bool)
    requires m.Valid() && P == m.Ports() && 0 <= sd < 4 && 0 <= si < m.nterm && 0 <= dd < 4
    requires NormalPrinted(m.nterm, P, NormalCursor(m.nterm, sd, si, dd, 0), g0, first0)
    ensures NormalPrinted(m.nterm, P, NormalCursor(m.nterm, sd, si, dd + 1, 0), g, first)
  {
    var n := m.nterm;
    g, first := g0, first0;
    var di := 0;
    while di < n
      invariant 0 <= di <= n
      invariant NormalPrinted(n, P, NormalCursor(n, sd, si, dd, di), g, first)
    {
      g, first := PrintNormalPort(m, sd, si, dd, di, g, first, P);
      di := di + 1;
    }
    assert di == n;
    NormalRunCarry(n, sd, si, dd);
  }

  /** The two inner normal loops: every destination of source (sd, si). */
  method PrintNormalSource(m: Maze, sd: int, si: int, g0: string, first0: bool, ghost P: seq<byte>)
    returns (g: string, first: bool)
    requires m.Valid() && P == m.Ports() && 0 <= sd < 4 && 0 <= si < m.nterm
    requires NormalPrinted(m.nterm, P, SourceCursor(m.nterm, sd, si), g0, first0)
    ensures NormalPrinted(m.nterm, P, SourceCursor(m.nterm, sd, si + 1), g, first)
  {
    var n := m.nterm;
    SourceCarry(n, sd, si);
    g, first := g0, first0;
    var dd := 0;
    while dd < 4
      invariant 0 <= dd <= 4
      invariant NormalPrinted(n, P, NormalCursor(n, sd, si, dd, 0), g, first)
    {
      g, first := PrintNormalRun(m, sd, si, dd, g, first, P);
      dd := dd + 1;
    }
    assert dd == 4;
  }

  /** The loop over source terminals si of one source direction sd. */
  method PrintNormalDirection(m: Maze, sd: int, g0: string, first0: bool, ghost P: seq<byte>)
    returns (g: string, first: bool)
    requires m.Valid() && P == m.Ports() && 0 <= sd < 4
    requires NormalPrinted(m.nterm, P, SourceCursor(m.nterm, sd, 0), g0, first0)
    ensures NormalPrinted(m.nterm, P, SourceCursor(m.nterm, sd + 1, 0), g, first)
  {
    var n := m.nterm;
    g, first := g0, first0;
    var si := 0;
    while si < n
      invariant 0 <= si <= n
      invariant NormalPrinted(n, P, SourceCursor(n, sd, si), g, first)
    {
      g, first := PrintNormalSource(m, sd, si, g, first, P);
      si := si + 1;
    }
    assert si == n;
    DirectionCarry(n, sd);
  }

  /** Past the last normal port, the fold has written the group's list. */
  lemma NormalGroupDone(n: int, P: seq<byte>, g: string, first: bool)
    requires NormalPrinted(n, P, NormalCount(n), g, first)
    ensures var want := NormalTokens(n, P);
            ValidTokens(want) && g == PartialText(want) && (first <==> want == [])
  {
    NormalOutText(n, P, NormalCount(n));
  }

  /** The normal loops: every set port, in flat-index order, then " (none)"
      when there was none. */
  method PrintNormalGroup(m: Maze) returns (g: string)
    requires m.Valid()
    ensures g == GroupText(NormalTokens(m.nterm, m.Ports()))
  {
    var n := m.nterm;
    ghost var P := m.Ports();
    ghost var want := NormalTokens(n, P);
    g := "";
    var first := true;
    if n <= 0 {
      // No terminal: the loops over terminals run no iteration.
      assert want == [];
      g := CloseGroup(g, first, want);
      return;
    }
    DirectionCarry(n, 0);
    assert NormalPrinted(n, P, SourceCursor(n, 0, 0), g, first);
    var sd := 0;
    while sd < 4
      invariant 0 <= sd <= 4
      invariant NormalPrinted(n, P, SourceCursor(n, sd, 0), g, first)
    {
      g, first := PrintNormalDirection(m, sd, g, first, P);
      sd := sd + 1;
    }
    assert sd == 4;
    NormalGroupDone(n, P, g, first);
    g := CloseGroup(g, first, want);
  }

  // ---------------------------------------------------------------------
  // The nx and ny groups
  // ---------------------------------------------------------------------

  /** The direction letter both ends of an nx (E) or ny (N) entry carry. */
  function EdgeDir(ny: bool): (d: int)
    ensures 0 <= d < 4
  {
    if ny then TDirN else TDirE
  }

  /** Where the nx or the ny block starts in the flat table. */
  function EdgeBase(n: int, ny: bool): (b: nat)
    ensures b + EdgeCount(n) <= TotalCount(n)
  {
    if ny then NormalCount(n) + EdgeCount(n) else NormalCount(n)
  }

  /** The edge index of the next port the (si, di) loops reach: the
      diagonal si == di has none and is skipped. */
  function EdgeCursor(n: int, si: int, di: int): int {
    Times(n - 1, si) + (if di <= si then di else di - 1)
  }

  /** The edge index the loops are at before source terminal si. */
  function EdgeRowStart(n: int, si: int): int {
    Times(n - 1, si)
  }

  /** The cursor is edge_idx of the port it is at, off the diagonal. */
  lemma EdgeCursorIdx(n: int, si: int, di: int)
    requires si >= 0 && di != si
    ensures EdgeCursor(n, si, di) == EdgeIdx(n, si, di)
  {
    TimesIsMul(n - 1, si);
  }

  lemma EdgeCarry(n: int, si: int)
    requires si >= 0
    ensures EdgeCursor(n, si, 0) == EdgeRowStart(n, si)
    ensures n > si ==> EdgeCursor(n, si, n) == EdgeRowStart(n, si + 1)
  {
  }

  lemma EdgeEnd(n: int)
    requires n >= 0
    ensures EdgeRowStart(n, 0) == 0 && EdgeRowStart(n, n) == EdgeCount(n)
  {
    TimesIsMul(n - 1, n);
  }

  /** The set edge ports of group ny with edge index below j. */
  ghost function EdgeSoFar(n: int, ports: seq<byte>, ny: bool, j: nat): (ts: seq<Port>)
    requires n >= 0 && j <= EdgeCount(n) && |ports| == TotalCount(n)
    ensures ValidTokens(ts)
  {
    EdgeTokensUpTo(n, ports, EdgeBase(n, ny), EdgeDir(ny), j)
  }

  /** What the edge loops have printed, and the first flag, once the first
      j edge ports are behind them. */
  ghost function EdgeOut(n: int, P: seq<byte>, ny: bool, j: nat): (string, bool)
    requires n >= 0 && j <= EdgeCount(n) && |P| == TotalCount(n)
    decreases j
  {
    if j == 0 then ("", true)
    else if P[EdgeBase(n, ny) + j - 1] != 0 then
      var e := EdgeDecode(n, j - 1);
      Emit(EdgeOut(n, P, ny, j - 1), Port(EdgeDir(ny), e.0, EdgeDir(ny), e.1))
    else EdgeOut(n, P, ny, j - 1)
  }

  /** One edge port further, the list grows by that port when it is set. */
  lemma EdgeSoFarNext(n: int, P: seq<byte>, ny: bool, j: nat)
    requires n >= 0 && 0 < j <= EdgeCount(n) && |P| == TotalCount(n)
    ensures var e := EdgeDecode(n, j - 1);
            var ts := EdgeSoFar(n, P, ny, j - 1);
            EdgeSoFar(n, P, ny, j) ==
              if P[EdgeBase(n, ny) + j - 1] != 0 then ts + [Port(EdgeDir(ny), e.0, EdgeDir(ny), e.1)] else ts
  {
    assert EdgeSoFar(n, P, ny, j - 1) + [] == EdgeSoFar(n, P, ny, j - 1);
  }

  /** The fold writes the PartialText of the set edge ports it has passed. */
  lemma {:induction false} EdgeOutText(n: int, P: seq<byte>, ny: bool, j: nat)
    requires n >= 0 && j <= EdgeCount(n) && |P| == TotalCount(n)
    ensures EdgeOut(n, P, ny, j) == (PartialText(EdgeSoFar(n, P, ny, j)), EdgeSoFar(n, P, ny, j) == [])
    decreases j
  {
    if j > 0 {
      EdgeOutText(n, P, ny, j - 1);
      EdgeSoFarNext(n, P, ny, j);
      var e := EdgeDecode(n, j - 1);
      var p := Port(EdgeDir(ny), e.0, EdgeDir(ny), e.1);
      assert ValidToken(p);
      var isSet := P[EdgeBase(n, ny) + j - 1] != 0;
      var prev, cur := EdgeOut(n, P, ny, j - 1), EdgeOut(n, P, ny, j);
      assert isSet ==> cur == Emit(prev, p);
      assert !isSet ==> cur == prev;
      FoldStep(prev, EdgeSoFar(n, P, ny, j - 1), p, isSet, cur, EdgeSoFar(n, P, ny, j));
    }
  }

  /** What the edge loops keep once the first j edge ports are behind them. */
  ghost predicate EdgePrinted(n: int, P: seq<byte>, ny: bool, j: int, g: string, first: bool) {
    n > 0 && |P| == TotalCount(n) && 0 <= j <= EdgeCount(n) && (g, first) == EdgeOut(n, P, ny, j)
  }

  /** One more edge port passed: its entry is emitted when it is set. */
  lemma EdgeStep(n: int, P: seq<byte>, ny: bool, j: nat, si: int, di: int)
    requires n >= 0 && j < EdgeCount(n) && |P| == TotalCount(n)
    requires EdgeInRange(n, si, di) && EdgeIdx(n, si, di) == j
    ensures P[EdgeBase(n, ny) + j] != 0 ==>
              EdgeOut(n, P, ny, j + 1) == Emit(EdgeOut(n, P, ny, j), Port(EdgeDir(ny), si, EdgeDir(ny), di))
    ensures P[EdgeBase(n, ny) + j] == 0 ==> EdgeOut(n, P, ny, j + 1) == EdgeOut(n, P, ny, j)
  {
    EdgeDecodeIdx(n, si, di);
  }

  /** The body of the inner edge loop, at destination di of source si: the
      diagonal is skipped (`continue`), a set port printed. */
  method PrintEdgePort(m: Maze, ny: bool, si: int, di: int, g0: string, first0: bool, ghost P: seq<byte>)
    returns (g: string, first: bool)
    requires m.Valid() && P == m.Ports() && 0 <= si < m.nterm && 0 <= di < m.nterm
    requires EdgePrinted(m.nterm, P, ny, EdgeCursor(m.nterm, si, di), g0, first0)
    ensures EdgePrinted(m.nterm, P, ny, EdgeCursor(m.nterm, si, di + 1), g, first)
  {
    var n := m.nterm;
    ghost var j := EdgeCursor(n, si, di);
    ghost var j' := EdgeCursor(n, si, di + 1);
    g, first := g0, first0;
    if di == si {
      assert j' == j;
      return;
    }
    EdgeCursorIdx(n, si, di);
    assert j' == j + 1;
    var dir := if ny then TDirN else TDirE;
    EdgeIdxRange(n, si, di);
    EdgeStep(n, P, ny, j, si, di);
    var v := if ny then m.NyPort(si, di) else m.NxPort(si, di);
    assert v == P[EdgeBase(n, ny) + j];
    if v != 0 {
      g, first := PrintEntry(g, first, Port(dir, si, dir, di));
    }
  }

  /** The inner edge loop: destinations di of source si. */
  method PrintEdgeRow(m: Maze, ny: bool, si: int, g0: string, first0: bool, ghost P: seq<byte>)
    returns (g: string, first: bool)
    requires m.Valid() && P == m.Ports() && 0 <= si < m.nterm
    requires EdgePrinted(m.nterm, P, ny, EdgeRowStart(m.nterm, si), g0, first0)
    ensures EdgePrinted(m.nterm, P, ny, EdgeRowStart(m.nterm, si + 1), g, first)
  {
    var n := m.nterm;
    EdgeCarry(n, si);
    g, first := g0, first0;
    var di := 0;
    while di < n
      invariant 0 <= di <= n
      invariant EdgePrinted(n, P, ny, EdgeCursor(n, si, di), g, first)
    {
      g, first := PrintEdgePort(m, ny, si, di, g, first, P);
      di := di + 1;
    }
    assert di == n;
  }

  /** The outer edge loop: every source terminal si. */
  method PrintEdgeRows(m: Maze, ny: bool, g0: string, first0: bool, ghost P: seq<byte>)
    returns (g: string, first: bool)
    requires m.Valid() && P == m.Ports()
    requires EdgePrinted(m.nterm, P, ny, EdgeRowStart(m.nterm, 0), g0, first0)
    ensures EdgePrinted(m.nterm, P, ny, EdgeRowStart(m.nterm, m.nterm), g, first)
  {
    var n := m.nterm;
    g, first := g0, first0;
    var si := 0;
    while si < n
      invariant 0 <= si <= n
      invariant EdgePrinted(n, P, ny, EdgeRowStart(n, si), g, first)
    {
      g, first := PrintEdgeRow(m, ny, si, g, first, P);
      si := si + 1;
    }
    assert si == n;
  }

  /** Past the last edge port, the fold has written the group's list. */
  lemma EdgeGroupDone(n: int, P: seq<byte>, ny: bool, g: string, first: bool)
    requires EdgePrinted(n, P, ny, EdgeCount(n), g, first)
    ensures var want := if ny then NyTokens(n, P) else NxTokens(n, P);
            ValidTokens(want) && g == PartialText(want) && (first <==> want == [])
  {
    EdgeOutText(n, P, ny, EdgeCount(n));
  }

  /** The nx loops (ny false) or the ny loops (ny true): each set port with
      di != si as "E<si>->E<di>" (or N), then " (none)" when there was none. */
  method PrintEdgeGroup(m: Maze, ny: bool) returns (g: string)
    requires m.Valid()
    ensures g == GroupText(if ny then NyTokens(m.nterm, m.Ports()) else NxTokens(m.nterm, m.Ports()))
  {
    var n := m.nterm;
    ghost var P := m.Ports();
    ghost var want := if ny then NyTokens(n, P) else NxTokens(n, P);
    g := "";
    var first := true;
    if n <= 0 {
      // No terminal: the loops over terminals run no iteration.
      assert want == [];
      g := CloseGroup(g, first, want);
      return;
    }
    EdgeEnd(n);
    assert EdgePrinted(n, P, ny, EdgeRowStart(n, 0), g, first);
    g, first := PrintEdgeRows(m, ny, g, first, P);
    EdgeGroupDone(n, P, ny, g, first);
    g := CloseGroup(g, first, want);
  }

  lemma LineOf(a: string, b: string, c: string)
    ensures "normal:" + a + "; nx:" + b + "; ny:" + c + "\n" == MazeLine(a, b, c, "\n")
  {
  }

  /** maze_fprint: the line written is FormatText of the table. */
  method Fprint(m: Maze) returns (out: string)
    requires m.Valid()
    ensures out == FormatText(m.nterm, m.Ports())
  {
    out := "normal:";
    var normal := PrintNormalGroup(m);
    out := out + normal;
    out := out + "; nx:";
    var nx := PrintEdgeGroup(m, false);
    out := out + nx;
    out := out + "; ny:";
    var ny := PrintEdgeGroup(m, true);
    out := out + ny;
    out := out + "\n";
    LineOf(normal, nx, ny);
  }
}
