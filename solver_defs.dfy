/** Declarations of solver.h and the pure helpers of solver.c: canonical
    states, their equality and hash, and the canonicalisation of a block
    terminal to the boundary point it shares with its neighbour block. */
module SolverDefs {
  import opened MazeDefs

  /** Canonical directions: only E and N survive canonicalisation. */
  const CDirE: int := 0
  const CDirN: int := 1

  /** A boundary point (x, y, dir, idx): the E side (dir 0) or the N side
      (dir 1) of block (x, y), terminal idx. */
  datatype State = State(x: int, y: int, dir: int, idx: int)

  /** A state the solver can meet: a canonical direction and a terminal
      index in [0, nterm). */
  predicate IsCanonical(n: int, s: State) {
    (s.dir == CDirE || s.dir == CDirN) && 0 <= s.idx < n
  }

  /** state_eq: field-by-field comparison, which is equality of records. */
  function StateEq(a: State, b: State): (r: bool)
    ensures r <==> a == b
  {
    a.x == b.x && a.y == b.y && a.dir == b.dir && a.idx == b.idx
  }

  /** The FNV-1a offset basis and prime over 64 bits. */
  const FnvOffset: bv64 := 14695981039346656037
  const FnvPrime: bv64 := 1099511628211

  /** The cast (uint64_t)(uint32_t)v of a C int: v modulo 2^32. */
  function Word(v: int): bv64 {
    (v % 0x1_0000_0000) as bv64
  }

  /** One xor-then-multiply round of state_hash (the product wraps). */
  function FnvRound(h: bv64, v: int): bv64 {
    (h ^ Word(v)) * FnvPrime
  }

  /** state_hash: four FNV rounds over x, y, dir, idx. */
  function StateHash(s: State): bv64 {
    FnvRound(FnvRound(FnvRound(FnvRound(FnvOffset, s.x), s.y), s.dir), s.idx)
  }

  /** to_canonical: the E and N terminals of block (x, y) name its own
      boundary points; W names the E point of block (x-1, y) and S the N
      point of block (x, y-1); any other direction code gives (-1, -1). */
  function ToCanonical(x: int, y: int, tdir: int, tidx: int): (s: State)
    ensures s.idx == tidx
    ensures tdir == TDirE ==> s == State(x, y, CDirE, tidx)
    ensures tdir == TDirW ==> s == State(x - 1, y, CDirE, tidx)
    ensures tdir == TDirN ==> s == State(x, y, CDirN, tidx)
    ensures tdir == TDirS ==> s == State(x, y - 1, CDirN, tidx)
    ensures !(0 <= tdir < 4) ==> s == State(-1, -1, 0, tidx)
  {
    if tdir == TDirE then State(x, y, CDirE, tidx)
    else if tdir == TDirW then State(x - 1, y, CDirE, tidx)
    else if tdir == TDirN then State(x, y, CDirN, tidx)
    else if tdir == TDirS then State(x, y - 1, CDirN, tidx)
    else State(-1, -1, 0, tidx)
  }

  /** The blocks on the two sides of a boundary point see the same state:
      E of (x, y) is W of (x+1, y), and N of (x, y) is S of (x, y+1). */
  lemma SharedPoints(x: int, y: int, i: int)
    ensures ToCanonical(x, y, TDirE, i) == ToCanonical(x + 1, y, TDirW, i)
    ensures ToCanonical(x, y, TDirN, i) == ToCanonical(x, y + 1, TDirS, i)
  {
  }

  /** Exactly two (block, terminal) pairs name each canonical state: the
      terminal of the block the state belongs to and the opposite terminal
      of the block across that boundary. */
  lemma CanonicalPreimage(s: State, x: int, y: int, tdir: int)
    requires s.dir == CDirE || s.dir == CDirN
    requires 0 <= tdir < 4
    ensures ToCanonical(x, y, tdir, s.idx) == s <==>
              (s.dir == CDirE && ((x, y, tdir) == (s.x, s.y, TDirE) || (x, y, tdir) == (s.x + 1, s.y, TDirW))) ||
              (s.dir == CDirN && ((x, y, tdir) == (s.x, s.y, TDirN) || (x, y, tdir) == (s.x, s.y + 1, TDirS)))
  {
  }

  /** A valid terminal canonicalises to a canonical state. */
  lemma CanonicalDir(x: int, y: int, tdir: int, tidx: int, n: int)
    requires 0 <= tdir < 4 && 0 <= tidx < n
    ensures IsCanonical(n, ToCanonical(x, y, tdir, tidx))
  {
  }
}
