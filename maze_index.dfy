/** The port index arithmetic of maze.c: the normal block's (4n)^2 ports are
    packed as (source terminal, destination terminal) in row-major order, and
    an nx or ny block's n(n-1) ports skip the diagonal si == di. */
module MazeIndex {
  import opened DivMod

  /** A directed port (sd, si) -> (dd, di) between two terminals, each given
      by a TDir* direction code and a terminal index. */
  datatype Port = Port(sd: int, si: int, dd: int, di: int)

  /** Number of ports of a normal block: (4*nterm)^2. */
  function NormalCount(n: int): nat {
    SquareNonNegative(4 * n);
    (4 * n) * (4 * n)
  }

  /** Number of ports of an nx or of an ny block: nterm*(nterm-1). */
  function EdgeCount(n: int): nat {
    EdgeCountNonNegative(n);
    n * (n - 1)
  }

  /** Number of ports of the whole table: normal ++ nx ++ ny. */
  function TotalCount(n: int): nat {
    NormalCount(n) + EdgeCount(n) + EdgeCount(n)
  }

  lemma SquareNonNegative(x: int)
    ensures x * x >= 0
  {
    if x < 0 {
      assert x * x == (-x) * (-x);
      MulMono(0, -x, -x);
    } else {
      MulMono(0, x, x);
    }
  }

  lemma EdgeCountNonNegative(n: int)
    ensures n * (n - 1) >= 0
  {
    if n <= 0 {
      assert n * (n - 1) == (-n) * (1 - n);
      MulMono(0, -n, 1 - n);
    } else {
      MulMono(0, n, n - 1);
    }
  }

  predicate NormalInRange(n: int, p: Port) {
    0 <= p.sd < 4 && 0 <= p.si < n && 0 <= p.dd < 4 && 0 <= p.di < n
  }

  predicate EdgeInRange(n: int, si: int, di: int) {
    0 <= si < n && 0 <= di < n && si != di
  }

  /** normal_idx: (sd*n + si) * 4n + (dd*n + di). */
  function NormalIdx(n: int, p: Port): int {
    var n4 := 4 * n;
    var src := p.sd * n + p.si;
    var dst := p.dd * n + p.di;
    src * n4 + dst
  }

  /** edge_idx: si*(n-1) + di, with di moved down by one past the diagonal. */
  function EdgeIdx(n: int, si: int, di: int): int {
    var adj := if di < si then di else di - 1;
    si * (n - 1) + adj
  }

  lemma NormalIdxRange(n: int, p: Port)
    requires NormalInRange(n, p)
    ensures 0 <= NormalIdx(n, p) < NormalCount(n)
  {
    MixRange(p.sd, 4, p.si, n);
    MixRange(p.dd, 4, p.di, n);
    MixRange(p.sd * n + p.si, 4 * n, p.dd * n + p.di, 4 * n);
  }

  lemma EdgeIdxRange(n: int, si: int, di: int)
    requires EdgeInRange(n, si, di)
    ensures 0 <= EdgeIdx(n, si, di) < EdgeCount(n)
  {
    var adj := if di < si then di else di - 1;
    MixRange(si, n, adj, n - 1);
  }

  /** Two ports in range with the same normal index are the same port. */
  lemma NormalIdxInjective(n: int, p: Port, q: Port)
    requires NormalInRange(n, p) && NormalInRange(n, q) && NormalIdx(n, p) == NormalIdx(n, q)
    ensures p == q
  {
    MixRange(p.dd, 4, p.di, n);
    MixRange(q.dd, 4, q.di, n);
    MixDecode(p.sd * n + p.si, p.dd * n + p.di, 4 * n);
    MixDecode(q.sd * n + q.si, q.dd * n + q.di, 4 * n);
    MixDecode(p.sd, p.si, n);
    MixDecode(q.sd, q.si, n);
    MixDecode(p.dd, p.di, n);
    MixDecode(q.dd, q.di, n);
  }

  /** Every index of the normal block is the index of a port in range. */
  lemma NormalOnto(n: int, k: int)
    requires n >= 0 && 0 <= k < NormalCount(n)
    ensures exists p :: NormalInRange(n, p) && NormalIdx(n, p) == k
  {
    assert n > 0;
    var n4 := 4 * n;
    var src := k / n4;
    var dst := k % n4;
    MixSplit(k, n4, n4);
    MixSplit(src, 4, n);
    MixSplit(dst, 4, n);
    var p := Port(src / n, src % n, dst / n, dst % n);
    assert NormalInRange(n, p) && NormalIdx(n, p) == k;
  }

  /** The inverse of NormalIdx on [0, (4n)^2). */
  ghost function NormalDecode(n: int, k: int): (p: Port)
    requires n >= 0 && 0 <= k < NormalCount(n)
    ensures NormalInRange(n, p) && NormalIdx(n, p) == k
  {
    NormalOnto(n, k);
    var p :| NormalInRange(n, p) && NormalIdx(n, p) == k; p
  }

  lemma NormalDecodeIdx(n: int, p: Port)
    requires NormalInRange(n, p)
    ensures 0 <= NormalIdx(n, p) < NormalCount(n)
    ensures NormalDecode(n, NormalIdx(n, p)) == p
  {
    NormalIdxRange(n, p);
    NormalIdxInjective(n, p, NormalDecode(n, NormalIdx(n, p)));
  }

  /** Two edges in range with the same edge index are the same edge. */
  lemma EdgeIdxInjective(n: int, si: int, di: int, sj: int, dj: int)
    requires EdgeInRange(n, si, di) && EdgeInRange(n, sj, dj) && EdgeIdx(n, si, di) == EdgeIdx(n, sj, dj)
    ensures si == sj && di == dj
  {
    MixDecode(si, if di < si then di else di - 1, n - 1);
    MixDecode(sj, if dj < sj then dj else dj - 1, n - 1);
  }

  /** Every index of an edge block is the index of an edge in range. */
  lemma EdgeOnto(n: int, k: int)
    requires n >= 0 && 0 <= k < EdgeCount(n)
    ensures exists e: (int, int) :: EdgeInRange(n, e.0, e.1) && EdgeIdx(n, e.0, e.1) == k
  {
    assert n >= 2;
    MixSplit(k, n, n - 1);
    var si := k / (n - 1);
    var adj := k % (n - 1);
    var e := (si, if adj < si then adj else adj + 1);
    assert EdgeInRange(n, e.0, e.1) && EdgeIdx(n, e.0, e.1) == k;
  }

  /** The inverse of EdgeIdx on [0, n(n-1)). */
  ghost function EdgeDecode(n: int, k: int): (r: (int, int))
    requires n >= 0 && 0 <= k < EdgeCount(n)
    ensures EdgeInRange(n, r.0, r.1) && EdgeIdx(n, r.0, r.1) == k
  {
    EdgeOnto(n, k);
    var e: (int, int) :| EdgeInRange(n, e.0, e.1) && EdgeIdx(n, e.0, e.1) == k; e
  }

  lemma EdgeDecodeIdx(n: int, si: int, di: int)
    requires EdgeInRange(n, si, di)
    ensures EdgeCount(n) > EdgeIdx(n, si, di) >= 0
    ensures EdgeDecode(n, EdgeIdx(n, si, di)) == (si, di)
  {
    EdgeIdxRange(n, si, di);
    var e := EdgeDecode(n, EdgeIdx(n, si, di));
    EdgeIdxInjective(n, si, di, e.0, e.1);
  }

  /** get_neighbors reads normal_ports[src * 4n + dst] for dst in [0, 4n):
      that is the port from (sd, si) to terminal (dst / n, dst % n). */
  lemma NormalIdxRow(n: int, sd: int, si: int, dst: int)
    requires n > 0 && 0 <= dst < 4 * n
    ensures NormalIdx(n, Port(sd, si, dst / n, dst % n)) == (sd * n + si) * (4 * n) + dst
    ensures 0 <= dst / n < 4 && 0 <= dst % n < n
  {
    MixSplit(dst, 4, n);
  }
}
