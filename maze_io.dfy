/** maze_parse and maze_fprint as the C code runs them: a cursor over the
    input that writes ports into a fresh maze as entries are read, and four
    nested loops that print the set ports. Both are proved against the text
    specification in MazeText. */
module MazeIo {
  import opened Wrappers
  import opened Decimal
  import opened MazeDefs
  import opened MazeIndex
  import opened MazeStore
  import opened MazeText
  import opened MazeTextLemmas

  // ---------------------------------------------------------------------
  // Reading
  // ---------------------------------------------------------------------

  /** `*p`: the character under the cursor, NUL at the end. */
  function At(s: string, i: nat): (c: char)
    requires i <= |s|
    ensures c == Head(s[i..])
  {
    if i < |s| then s[i] else '\0'
  }

  lemma DropOne(s: string, i: nat)
    requires i < |s|
    ensures s[i..][1..] == s[i + 1..]
  {
  }

  lemma SkipCharAt(s: string, i: nat, c: char)
    requires i <= |s| && c != '\0'
    ensures SkipChar(s[i..], c) == s[(if At(s, i) == c then i + 1 else i)..]
  {
    if At(s, i) == c {
      DropOne(s, i);
    }
  }

  /** skip_ws. */
  method SkipWsAt(s: string, p: nat) returns (q: nat)
    requires p <= |s|
    ensures p <= q <= |s| && s[q..] == SkipWs(s[p..])
  {
    q := p;
    while q < |s| && IsSpace(s[q])
      invariant p <= q <= |s| && SkipWs(s[q..]) == SkipWs(s[p..])
      decreases |s| - q
    {
      DropOne(s, q);
      q := q + 1;
    }
  }

  lemma DigitsSnoc(s: string, start: nat, q: nat)
    requires start <= q < |s| && AllDigits(s[start..q]) && IsDigit(s[q])
    ensures AllDigits(s[start..q + 1])
    ensures DigitsValue(s[start..q + 1]) == DigitsValue(s[start..q]) * 10 + (s[q] as int - '0' as int)
  {
    assert s[start..q + 1][..q - start] == s[start..q];
  }

  lemma DigitRunAt(s: string, start: nat, q: nat)
    requires start <= q <= |s| && AllDigits(s[start..q]) && !IsDigit(At(s, q))
    ensures DigitRun(s[start..]) == q - start
    ensures s[start..][..q - start] == s[start..q] && s[start..][q - start..] == s[q..]
  {
    assert s[start..] == s[start..q] + s[q..];
    DigitRunOf(s[start..q], s[q..]);
  }

  lemma TerminalNoDir(s: string, p: nat, q: nat)
    requires p <= q <= |s| && s[q..] == SkipWs(s[p..]) && ParseDir(At(s, q)) < 0
    ensures ParseTerminalText(s[p..]) == (None, s[q..])
  {
  }

  lemma TerminalNoDigit(s: string, p: nat, q: nat)
    requires p <= q < |s| && s[q..] == SkipWs(s[p..]) && ParseDir(At(s, q)) >= 0
    requires !IsDigit(At(s, q + 1))
    ensures ParseTerminalText(s[p..]) == (None, s[q + 1..])
  {
    DropOne(s, q);
  }

  lemma TerminalDigits(s: string, p: nat, q: nat, e: nat)
    requires p <= q < e <= |s| && s[q..] == SkipWs(s[p..]) && ParseDir(At(s, q)) >= 0
    requires IsDigit(At(s, q + 1)) && AllDigits(s[q + 1..e]) && !IsDigit(At(s, e))
    ensures ParseTerminalText(s[p..]) ==
            (Some((ParseDir(At(s, q)), DigitsValue(s[q + 1..e]))), s[e..])
  {
    DropOne(s, q);
    DigitRunAt(s, q + 1, e);
  }

  /** parse_terminal: on success the direction and the accumulated index. */
  method ParseTerminalAt(s: string, p: nat) returns (ok: bool, dir: int, idx: int, q: nat)
    requires p <= |s|
    ensures p <= q <= |s|
    ensures ParseTerminalText(s[p..]) == (if ok then Some((dir, idx)) else None, s[q..])
  {
    q := SkipWsAt(s, p);
    dir := ParseDir(At(s, q));
    idx := 0;
    if dir < 0 {
      TerminalNoDir(s, p, q);
      ok := false;
      return;
    }
    ghost var q0 := q;
    q := q + 1;
    if !IsDigit(At(s, q)) {
      TerminalNoDigit(s, p, q0);
      ok := false;
      return;
    }
    var start := q;
    while q < |s| && IsDigit(s[q])
      invariant start <= q <= |s| && AllDigits(s[start..q])
      invariant idx == DigitsValue(s[start..q])
      decreases |s| - q
    {
      DigitsSnoc(s, start, q);
      idx := idx * 10 + (s[q] as int - '0' as int);
      q := q + 1;
    }
    TerminalDigits(s, p, q0, q);
    ok := true;
  }

  /** The three blocks a section writes into. */
  datatype Block = NormalBlock | NxBlock | NyBlock

  /** The header of a block's section. */
  function Header(b: Block): string {
    match b
    case NormalBlock => "normal:"
    case NxBlock => "nx:"
    case NyBlock => "ny:"
  }

  /** The ports the set calls of one section leave behind: every in-range
      entry of ts set to 1 in block b, everything else as it was. */
  function Stored(n: int, ports: seq<byte>, b: Block, ts: seq<Port>): (r: seq<byte>)
    requires |ports| == TotalCount(n)
    ensures |r| == |ports|
  {
    match b
    case NormalBlock =>
      seq(|ports|, i requires 0 <= i < |ports| =>
        if i in NormalSet(n, ts) then 1 else ports[i])
    case NxBlock =>
      seq(|ports|, i requires 0 <= i < |ports| =>
        if i - NormalCount(n) in EdgeSet(n, ts) && i >= NormalCount(n) then 1 else ports[i])
    case NyBlock =>
      seq(|ports|, i requires 0 <= i < |ports| =>
        if i - NormalCount(n) - EdgeCount(n) in EdgeSet(n, ts) && i >= NormalCount(n) + EdgeCount(n)
        then 1 else ports[i])
  }

  /** Whether the entry p is stored in block b, and where (flat index). */
  predicate Fits(n: int, b: Block, p: Port) {
    if b == NormalBlock then NormalInRange(n, p) else EdgeInRange(n, p.si, p.di)
  }

  function FlatIdx(n: int, b: Block, p: Port): int {
    match b
    case NormalBlock => NormalIdx(n, p)
    case NxBlock => NormalCount(n) + EdgeIdx(n, p.si, p.di)
    case NyBlock => NormalCount(n) + EdgeCount(n) + EdgeIdx(n, p.si, p.di)
  }

  lemma NormalSetBound(n: int, ts: seq<Port>, x: int)
    requires x in NormalSet(n, ts)
    ensures 0 <= x < NormalCount(n)
  {
    var i :| 0 <= i < |ts| && NormalInRange(n, ts[i]) && NormalIdx(n, ts[i]) == x;
    NormalIdxRange(n, ts[i]);
  }

  lemma EdgeSetBound(n: int, ts: seq<Port>, x: int)
    requires x in EdgeSet(n, ts)
    ensures 0 <= x < EdgeCount(n)
  {
    var i :| 0 <= i < |ts| && EdgeInRange(n, ts[i].si, ts[i].di) && EdgeIdx(n, ts[i].si, ts[i].di) == x;
    EdgeIdxRange(n, ts[i].si, ts[i].di);
  }

  /** A section without entries stores nothing. */
  lemma StoredEmpty(n: int, ports: seq<byte>, b: Block)
    requires |ports| == TotalCount(n)
    ensures Stored(n, ports, b, []) == ports
  {
    assert NormalSet(n, []) == {};
    assert EdgeSet(n, []) == {};
  }

  /** One more entry sets its own port when it fits the block and changes
      nothing otherwise. */
  lemma StoredSnoc(n: int, ports: seq<byte>, b: Block, ts: seq<Port>, p: Port)
    requires |ports| == TotalCount(n)
    ensures Fits(n, b, p) ==>
              0 <= FlatIdx(n, b, p) < |ports| &&
              Stored(n, ports, b, ts + [p]) == Stored(n, ports, b, ts)[FlatIdx(n, b, p) := 1]
    ensures !Fits(n, b, p) ==> Stored(n, ports, b, ts + [p]) == Stored(n, ports, b, ts)
  {
    match b
    case NormalBlock => StoredSnocNormal(n, ports, ts, p);
    case NxBlock => StoredSnocNx(n, ports, ts, p);
    case NyBlock => StoredSnocNy(n, ports, ts, p);
  }

  lemma StoredSnocNormal(n: int, ports: seq<byte>, ts: seq<Port>, p: Port)
    requires |ports| == TotalCount(n)
    ensures NormalInRange(n, p) ==>
              0 <= NormalIdx(n, p) < |ports| &&
              Stored(n, ports, NormalBlock, ts + [p]) == Stored(n, ports, NormalBlock, ts)[NormalIdx(n, p) := 1]
    ensures !NormalInRange(n, p) ==> Stored(n, ports, NormalBlock, ts + [p]) == Stored(n, ports, NormalBlock, ts)
  {
    NormalSetSnoc(n, ts, p);
    if NormalInRange(n, p) {
      NormalIdxRange(n, p);
    }
  }

  lemma StoredSnocNx(n: int, ports: seq<byte>, ts: seq<Port>, p: Port)
    requires |ports| == TotalCount(n)
    ensures EdgeInRange(n, p.si, p.di) ==>
              0 <= NormalCount(n) + EdgeIdx(n, p.si, p.di) < |ports| &&
              Stored(n, ports, NxBlock, ts + [p]) ==
              Stored(n, ports, NxBlock, ts)[NormalCount(n) + EdgeIdx(n, p.si, p.di) := 1]
    ensures !EdgeInRange(n, p.si, p.di) ==> Stored(n, ports, NxBlock, ts + [p]) == Stored(n, ports, NxBlock, ts)
  {
    EdgeSetSnoc(n, ts, p);
    if EdgeInRange(n, p.si, p.di) {
      EdgeIdxRange(n, p.si, p.di);
    }
  }

  lemma StoredSnocNy(n: int, ports: seq<byte>, ts: seq<Port>, p: Port)
    requires |ports| == TotalCount(n)
    ensures EdgeInRange(n, p.si, p.di) ==>
              0 <= NormalCount(n) + EdgeCount(n) + EdgeIdx(n, p.si, p.di) < |ports| &&
              Stored(n, ports, NyBlock, ts + [p]) ==
              Stored(n, ports, NyBlock, ts)[NormalCount(n) + EdgeCount(n) + EdgeIdx(n, p.si, p.di) := 1]
    ensures !EdgeInRange(n, p.si, p.di) ==> Stored(n, ports, NyBlock, ts + [p]) == Stored(n, ports, NyBlock, ts)
  {
    EdgeSetSnoc(n, ts, p);
    if EdgeInRange(n, p.si, p.di) {
      EdgeIdxRange(n, p.si, p.di);
    }
  }

  /** The three sections stored one after the other into a fresh maze give
      exactly the table of the parsed pairs. */
  lemma StoredAll(n: int, normal: seq<Port>, nx: seq<Port>, ny: seq<Port>)
    ensures Stored(n, Stored(n, Stored(n, Zeros(TotalCount(n)), NormalBlock, normal), NxBlock, nx), NyBlock, ny)
            == PortsOf(n, normal, nx, ny)
  {
    var a := Stored(n, Zeros(TotalCount(n)), NormalBlock, normal);
    var b := Stored(n, a, NxBlock, nx);
    var c := Stored(n, b, NyBlock, ny);
    var r := PortsOf(n, normal, nx, ny);
    var nc := NormalCount(n);
    var ec := EdgeCount(n);
    forall i | 0 <= i < |r|
      ensures c[i] == r[i]
    {
      if i < nc {
        assert r[i] == NormalBits(n, normal)[i];
        if i - nc - ec in EdgeSet(n, ny) { EdgeSetBound(n, ny, i - nc - ec); }
        if i - nc in EdgeSet(n, nx) { EdgeSetBound(n, nx, i - nc); }
      } else if i < nc + ec {
        assert r[i] == EdgeBits(n, nx)[i - nc];
        if i in NormalSet(n, normal) { NormalSetBound(n, normal, i); }
        if i - nc - ec in EdgeSet(n, ny) { EdgeSetBound(n, ny, i - nc - ec); }
      } else {
        assert r[i] == EdgeBits(n, ny)[i - nc - ec];
        if i in NormalSet(n, normal) { NormalSetBound(n, normal, i); }
        if i - nc in EdgeSet(n, nx) { EdgeSetBound(n, nx, i - nc); }
      }
    }
  }

  lemma DropN(s: string, i: nat, k: nat)
    requires i + k <= |s|
    ensures s[i..][k..] == s[i + k..]
  {
  }

  /** The first terminal of an entry does not parse: the loop stops. */
  lemma EntryFailsFirst(t: string, u: string)
    requires Head(t) != ';' && Head(t) != '\0'
    requires ParseTerminalText(t) == (None, u)
    ensures ScanPorts(t) == ([], u)
  {
  }

  /** The second terminal does not parse: the loop stops. */
  lemma EntryFailsSecond(t: string, a: (int, int), u: string, m3: string, v: string)
    requires Head(t) != ';' && Head(t) != '\0'
    requires ParseTerminalText(t) == (Some(a), u)
    requires m3 == SkipChar(SkipChar(SkipWs(u), '-'), '>')
    requires ParseTerminalText(m3) == (None, v)
    ensures ScanPorts(t) == ([], v)
  {
  }

  /** Both terminals parse: one entry, and the cursor after its comma. */
  lemma EntryParsed(t: string, a: (int, int), u: string, m3: string, b: (int, int), v: string, w: string)
    requires ParseTerminalText(t) == (Some(a), u)
    requires m3 == SkipChar(SkipChar(SkipWs(u), '-'), '>')
    requires ParseTerminalText(m3) == (Some(b), v)
    requires w == SkipChar(SkipWs(v), ',')
    ensures ScanEntry(t) == (Some(Port(a.0, a.1, b.0, b.1)), w)
  {
  }

  lemma BodyIsNone(t: string, u: string)
    requires u == SkipWs(t) && StartsWith(u, "(none)")
    ensures ParseBody(t) == ([], u[6..])
  {
  }

  lemma BodyIsList(t: string, u: string)
    requires u == SkipWs(t) && !StartsWith(u, "(none)")
    ensures ParseBody(t) == ScanPorts(u)
  {
  }

  /** The text part of one pass of a section's entry loop: parse "T->T"
      and step over blanks and the comma after it. Not ok when a terminal
      does not parse; the loop then stops where the cursor is. */
  method ReadEntry(s: string, q: nat) returns (ok: bool, entry: Port, r: nat)
    requires q <= |s| && At(s, q) != '\0' && At(s, q) != ';'
    ensures q <= r <= |s|
    ensures !ok ==> ScanPorts(s[q..]) == ([], s[r..])
    ensures ok ==> q < r && ScanEntry(s[q..]) == (Some(entry), s[r..])
  {
    var sd, si, e1;
    ok, sd, si, e1 := ParseTerminalAt(s, q);
    entry := Port(0, 0, 0, 0);
    if !ok {
      EntryFailsFirst(s[q..], s[e1..]);
      r := e1;
      return;
    }
    var m1 := SkipWsAt(s, e1);
    SkipCharAt(s, m1, '-');
    var m2 := if At(s, m1) == '-' then m1 + 1 else m1;
    SkipCharAt(s, m2, '>');
    var m3 := if At(s, m2) == '>' then m2 + 1 else m2;
    var dd, di, e2;
    ok, dd, di, e2 := ParseTerminalAt(s, m3);
    if !ok {
      EntryFailsSecond(s[q..], (sd, si), s[e1..], s[m3..], s[e2..]);
      r := e2;
      return;
    }
    entry := Port(sd, si, dd, di);
    var m4 := SkipWsAt(s, e2);
    SkipCharAt(s, m4, ',');
    r := if At(s, m4) == ',' then m4 + 1 else m4;
    EntryParsed(s[q..], (sd, si), s[e1..], s[m3..], (dd, di), s[e2..], s[r..]);
  }

  /** The set call of one entry: maze_set_normal_port for a normal entry in
      range, maze_set_nx_port / maze_set_ny_port for an edge entry in range
      with si != di, nothing otherwise. */
  method StoreEntry(m: Maze, b: Block, entry: Port)
    requires m.Valid()
    modifies m.normalPorts, m.nxPorts, m.nyPorts
    ensures Fits(m.nterm, b, entry) ==>
              0 <= FlatIdx(m.nterm, b, entry) < |old(m.Ports())| &&
              m.Ports() == old(m.Ports())[FlatIdx(m.nterm, b, entry) := 1]
    ensures !Fits(m.nterm, b, entry) ==> m.Ports() == old(m.Ports())
  {
    var sd, si, dd, di := entry.sd, entry.si, entry.dd, entry.di;
    if b == NormalBlock {
      if sd >= 0 && sd < 4 && si >= 0 && si < m.nterm && dd >= 0 && dd < 4 && di >= 0 && di < m.nterm {
        m.SetNormalPort(sd, si, dd, di, 1);
      }
    } else if si >= 0 && si < m.nterm && di >= 0 && di < m.nterm && si != di {
      if b == NxBlock {
        m.SetNxPort(si, di, 1);
      } else {
        m.SetNyPort(si, di, 1);
      }
    }
  }

  /** The loop invariant of the entry loop, kept over abstract strings: t is
      the section text, u the rest under the cursor, acc the pairs read. */
  lemma ScanAdvance(t: string, u: string, w: string, acc: seq<Port>, e: Port)
    requires ScanPorts(t) == (acc + ScanPorts(u).0, ScanPorts(u).1)
    requires Head(u) != ';' && Head(u) != '\0' && ScanEntry(u) == (Some(e), w)
    ensures ScanPorts(t) == ((acc + [e]) + ScanPorts(w).0, ScanPorts(w).1)
  {
    ScanPortsStep(u, e, w);
    assert (acc + [e]) + ScanPorts(w).0 == acc + ([e] + ScanPorts(w).0);
  }

  lemma ScanStop(t: string, u: string, w: string, acc: seq<Port>)
    requires ScanPorts(t) == (acc + ScanPorts(u).0, ScanPorts(u).1)
    requires ScanPorts(u) == ([], w)
    ensures ScanPorts(t) == (acc, w)
  {
    assert acc + [] == acc;
  }

  lemma ScanEnd(t: string, u: string, acc: seq<Port>)
    requires ScanPorts(t) == (acc + ScanPorts(u).0, ScanPorts(u).1)
    requires Head(u) == ';' || Head(u) == '\0'
    ensures ScanPorts(t) == (acc, u)
  {
    ScanPortsEnd(u);
    assert acc + [] == acc;
  }

  /** The store invariant of the entry loop: the maze after one more set
      call holds the pairs read so far. */
  lemma StoredStep(n: int, ports: seq<byte>, b: Block, acc: seq<Port>, e: Port,
                   before: seq<byte>, after: seq<byte>)
    requires |ports| == TotalCount(n) && before == Stored(n, ports, b, acc)
    requires Fits(n, b, e) ==> 0 <= FlatIdx(n, b, e) < |before| && after == before[FlatIdx(n, b, e) := 1]
    requires !Fits(n, b, e) ==> after == before
    ensures after == Stored(n, ports, b, acc + [e])
  {
    StoredSnoc(n, ports, b, acc, e);
  }

  /** The entry loop of one section: `while (*p && *p != ';')`. */
  method ScanEntries(m: Maze, s: string, p: nat, b: Block) returns (q: nat)
    requires m.Valid() && p <= |s|
    modifies m.normalPorts, m.nxPorts, m.nyPorts
    ensures p <= q <= |s| && s[q..] == ScanPorts(s[p..]).1
    ensures m.Ports() == Stored(m.nterm, old(m.Ports()), b, ScanPorts(s[p..]).0)
  {
    ghost var n := m.nterm;
    ghost var P0 := m.Ports();
    ghost var acc: seq<Port> := [];
    StoredEmpty(n, P0, b);
    q := p;
    assert acc + ScanPorts(s[q..]).0 == ScanPorts(s[q..]).0;
    while At(s, q) != '\0' && At(s, q) != ';'
      invariant p <= q <= |s|
      invariant ScanPorts(s[p..]) == (acc + ScanPorts(s[q..]).0, ScanPorts(s[q..]).1)
      invariant m.Ports() == Stored(n, P0, b, acc)
      decreases |s| - q
    {
      var ok, entry, r := ReadEntry(s, q);
      if !ok {
        ScanStop(s[p..], s[q..], s[r..], acc);
        q := r;
        return;
      }
      ghost var before := m.Ports();
      StoreEntry(m, b, entry);
      StoredStep(n, P0, b, acc, entry, before, m.Ports());
      ScanAdvance(s[p..], s[q..], s[r..], acc, entry);
      acc := acc + [entry];
      q := r;
    }
    ScanEnd(s[p..], s[q..], acc);
  }

  /** The body of one section of maze_parse, after its header: "(none)", or
      the entry loop; each in-range entry is set to 1 as it is read. */
  method ScanBody(m: Maze, s: string, p: nat, b: Block) returns (q: nat)
    requires m.Valid() && p <= |s|
    modifies m.normalPorts, m.nxPorts, m.nyPorts
    ensures p <= q <= |s| && s[q..] == ParseBody(s[p..]).1
    ensures m.Ports() == Stored(m.nterm, old(m.Ports()), b, ParseBody(s[p..]).0)
  {
    q := SkipWsAt(s, p);
    if StartsWith(s[q..], "(none)") {
      BodyIsNone(s[p..], s[q..]);
      StoredEmpty(m.nterm, m.Ports(), b);
      DropN(s, q, 6);
      q := q + 6;
    } else {
      BodyIsList(s[p..], s[q..]);
      q := ScanEntries(m, s, q, b);
    }
  }

  lemma SectionAt(r: string, t: string, header: string)
    requires t == SkipWs(SkipChar(r, ';'))
    ensures ParseSection(r, header) ==
            if StartsWith(t, header) then Some(ParseBody(t[|header|..])) else None
  {
  }

  /** The section read from position p, given where the blanks after the
      optional ';' end. */
  lemma SectionFrom(s: string, p: nat, p1: nat, q: nat, r: nat, header: string)
    requires p <= |s| && p1 == (if At(s, p) == ';' then p + 1 else p)
    requires p1 <= q <= |s| && s[q..] == SkipWs(s[p1..])
    requires r == if StartsWith(s[q..], header) then q + |header| else q
    ensures r <= |s|
    ensures ParseSection(s[p..], header) ==
            if StartsWith(s[q..], header) then Some(ParseBody(s[r..])) else None
  {
    SkipCharAt(s, p, ';');
    SectionAt(s[p..], s[q..], header);
    if StartsWith(s[q..], header) {
      DropN(s, q, |header|);
    }
  }

  /** `if (*p == ';') p++;` then skip_str: whether the next section has the
      given header, and where its body starts. */
  method SectionStart(s: string, p: nat, header: string) returns (found: bool, q: nat)
    requires p <= |s|
    ensures q <= |s|
    ensures found <==> ParseSection(s[p..], header).Some?
    ensures found ==> ParseSection(s[p..], header).value == ParseBody(s[q..])
  {
    var p1 := if At(s, p) == ';' then p + 1 else p;
    var q0 := SkipWsAt(s, p1);
    found := StartsWith(s[q0..], header);
    q := if found then q0 + |header| else q0;
    SectionFrom(s, p, p1, q0, q, header);
  }

  /** maze_parse: NULL when the "normal:" header is missing (the maze made
      first is destroyed); otherwise a fresh maze holding exactly the
      in-range pairs of the sections that were read. */
  method Parse(nterm: int, s: string) returns (m: Maze?)
    ensures m == null <==> ParseText(nterm, s).None?
    ensures m != null ==> fresh(m) && fresh(m.normalPorts) && fresh(m.nxPorts) && fresh(m.nyPorts)
    ensures m != null ==> m.Valid() && m.nterm == nterm && m.Ports() == ParseText(nterm, s).value
  {
    var mz := new Maze(nterm);
    ghost var z := Zeros(TotalCount(nterm));
    assert s[0..] == s;
    var p := SkipWsAt(s, 0);
    if !StartsWith(s[p..], "normal:") {
      m := null;
      return;
    }
    m := mz;
    DropN(s, p, 7);
    ghost var normal := ParseBody(s[p + 7..]);
    p := ScanBody(mz, s, p + 7, NormalBlock);
    ghost var a := Stored(nterm, z, NormalBlock, normal.0);
    var found, q := SectionStart(s, p, "nx:");
    if !found {
      StoredEmpty(nterm, a, NxBlock);
      StoredEmpty(nterm, a, NyBlock);
      StoredAll(nterm, normal.0, [], []);
      return;
    }
    ghost var nx := ParseBody(s[q..]);
    p := ScanBody(mz, s, q, NxBlock);
    ghost var b := Stored(nterm, a, NxBlock, nx.0);
    found, q := SectionStart(s, p, "ny:");
    if !found {
      StoredEmpty(nterm, b, NyBlock);
      StoredAll(nterm, normal.0, nx.0, []);
      return;
    }
    ghost var ny := ParseBody(s[q..]);
    p := ScanBody(mz, s, q, NyBlock);
    StoredAll(nterm, normal.0, nx.0, ny.0);
  }
}
