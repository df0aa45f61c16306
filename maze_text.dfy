/** The text form of a port table: what maze_fprint writes
    ("normal: E0->N1, ...; nx: E0->E1; ny: (none)") and what maze_parse
    makes of a string. The scanner functions take the unread rest of the
    input and return the rest after the step, as the C cursor moves. */
module MazeText {
  import opened Wrappers
  import opened Decimal
  import opened MazeDefs
  import opened MazeIndex

  /** tdir_name[]: "E", "W", "N", "S". */
  function DirChar(d: int): (c: char)
    requires 0 <= d < 4
    ensures ParseDir(c) == d
  {
    if d == TDirE then 'E' else if d == TDirW then 'W' else if d == TDirN then 'N' else 'S'
  }

  /** parse_dir: a direction letter in either case, otherwise -1. */
  function ParseDir(c: char): (d: int)
    ensures -1 <= d < 4
    ensures d == -1 <==> c !in "EeWwNnSs"
  {
    if c == 'E' || c == 'e' then TDirE
    else if c == 'W' || c == 'w' then TDirW
    else if c == 'N' || c == 'n' then TDirN
    else if c == 'S' || c == 's' then TDirS
    else -1
  }

  // ---------------------------------------------------------------------
  // Writing (maze_fprint)
  // ---------------------------------------------------------------------

  /** A port that "%s%d->%s%d" can print. */
  predicate ValidToken(p: Port) {
    0 <= p.sd < 4 && 0 <= p.dd < 4 && p.si >= 0 && p.di >= 0
  }

  predicate ValidTokens(ts: seq<Port>) {
    forall i :: 0 <= i < |ts| ==> ValidToken(ts[i])
  }

  lemma ValidTokensCons(p: Port, ts: seq<Port>)
    requires ValidToken(p) && ValidTokens(ts)
    ensures ValidTokens([p] + ts)
  {
    forall i | 0 <= i < |[p] + ts|
      ensures ValidToken(([p] + ts)[i])
    {
      if i > 0 { assert ([p] + ts)[i] == ts[i - 1]; }
    }
  }

  /** One port as text, e.g. "W12->N3". */
  function TokText(p: Port): string
    requires ValidToken(p)
  {
    [DirChar(p.sd)] + NatStr(p.si) + "->" + [DirChar(p.dd)] + NatStr(p.di)
  }

  /** The tokens separated by ", ". */
  function Join(ts: seq<Port>): string
    requires |ts| > 0 && ValidTokens(ts)
    decreases |ts|
  {
    if |ts| == 1 then TokText(ts[0]) else TokText(ts[0]) + ", " + Join(ts[1..])
  }

  /** What follows a group header: " (none)" or " T1, T2, ...". */
  function GroupText(ts: seq<Port>): string
    requires ValidTokens(ts)
  {
    if ts == [] then " (none)" else " " + Join(ts)
  }

  /** The set normal ports with flat index below k, in increasing index order. */
  ghost function NormalTokensUpTo(n: int, ports: seq<byte>, k: nat): (ts: seq<Port>)
    requires n >= 0 && k <= NormalCount(n) <= |ports|
    ensures ValidTokens(ts) && |ts| <= k
    ensures forall i :: 0 <= i < |ts| ==> NormalInRange(n, ts[i])
  {
    if k == 0 then []
    else
      NormalTokensUpTo(n, ports, k - 1) +
      (if ports[k - 1] != 0 then [NormalDecode(n, k - 1)] else [])
  }

  /** The set ports of an edge group (nx at base NormalCount, ny after it)
      with edge index below k, in increasing index order, printed with
      direction letter dir on both ends. */
  ghost function EdgeTokensUpTo(n: int, ports: seq<byte>, base: nat, dir: int, k: nat): (ts: seq<Port>)
    requires n >= 0 && k <= EdgeCount(n) && base + EdgeCount(n) <= |ports| && 0 <= dir < 4
    ensures ValidTokens(ts) && |ts| <= k
    ensures forall i :: 0 <= i < |ts| ==>
      ts[i].sd == dir && ts[i].dd == dir && EdgeInRange(n, ts[i].si, ts[i].di)
  {
    if k == 0 then []
    else
      var e := EdgeDecode(n, k - 1);
      EdgeTokensUpTo(n, ports, base, dir, k - 1) +
      (if ports[base + k - 1] != 0 then [Port(dir, e.0, dir, e.1)] else [])
  }

  ghost function NormalTokens(n: int, ports: seq<byte>): seq<Port>
    requires |ports| == TotalCount(n)
  {
    if n < 0 then [] else NormalTokensUpTo(n, ports, NormalCount(n))
  }

  ghost function NxTokens(n: int, ports: seq<byte>): seq<Port>
    requires |ports| == TotalCount(n)
  {
    if n < 0 then [] else EdgeTokensUpTo(n, ports, NormalCount(n), TDirE, EdgeCount(n))
  }

  ghost function NyTokens(n: int, ports: seq<byte>): seq<Port>
    requires |ports| == TotalCount(n)
  {
    if n < 0 then []
    else EdgeTokensUpTo(n, ports, NormalCount(n) + EdgeCount(n), TDirN, EdgeCount(n))
  }

  /** The layout of a printed table: three group bodies after their
      headers, then whatever ends the line. */
  function MazeLine(normal: string, nx: string, ny: string, end: string): string {
    "normal:" + (normal + ("; nx:" + (nx + ("; ny:" + (ny + end)))))
  }

  /** The line maze_fprint writes for a table of nterm n. */
  ghost function FormatText(n: int, ports: seq<byte>): string
    requires |ports| == TotalCount(n)
  {
    MazeLine(GroupText(NormalTokens(n, ports)), GroupText(NxTokens(n, ports)),
             GroupText(NyTokens(n, ports)), "\n")
  }

  // ---------------------------------------------------------------------
  // Reading (maze_parse)
  // ---------------------------------------------------------------------

  /** The character under the cursor; the end of the string reads as NUL. */
  function Head(t: string): char {
    if |t| > 0 then t[0] else '\0'
  }

  /** skip_ws. */
  function SkipWs(t: string): (r: string)
    ensures |r| <= |t| && !IsSpace(Head(r))
  {
    if |t| > 0 && IsSpace(t[0]) then SkipWs(t[1..]) else t
  }

  /** strncmp(t, pre, strlen(pre)) == 0. */
  predicate StartsWith(t: string, pre: string) {
    |t| >= |pre| && t[..|pre|] == pre
  }

  /** The length of the run of digits at the start of t. */
  function DigitRun(t: string): (k: nat)
    ensures k <= |t| && AllDigits(t[..k]) && !IsDigit(Head(t[k..]))
    ensures IsDigit(Head(t)) ==> k >= 1
  {
    if |t| > 0 && IsDigit(t[0]) then
      var k := 1 + DigitRun(t[1..]);
      assert t[..k] == [t[0]] + t[1..][..k - 1];
      k
    else 0
  }

  /** parse_terminal: optional blanks, a direction letter, then at least one
      digit; the cursor moves even when it fails. */
  function ParseTerminalText(t: string): (r: (Option<(int, int)>, string))
    ensures |r.1| <= |t|
    ensures r.0.Some? ==> |r.1| + 2 <= |t| && 0 <= r.0.value.0 < 4 && r.0.value.1 >= 0
  {
    var t1 := SkipWs(t);
    var d := ParseDir(Head(t1));
    if d < 0 then (None, t1)
    else
      var t2 := t1[1..];
      if !IsDigit(Head(t2)) then (None, t2)
      else
        var k := DigitRun(t2);
        (Some((d, DigitsValue(t2[..k]))), t2[k..])
  }

  /** `if (*p == c) p++;` */
  function SkipChar(t: string, c: char): (r: string)
    ensures |r| <= |t|
  {
    if |t| > 0 && t[0] == c then t[1..] else t
  }

  /** One entry "T->T" with the comma after it; None when either terminal
      does not parse, with the rest where the C cursor stops. */
  function ScanEntry(t: string): (r: (Option<Port>, string))
    ensures |r.1| <= |t|
    ensures r.0.Some? ==> |r.1| + 4 <= |t| && ValidToken(r.0.value)
  {
    var a := ParseTerminalText(t);
    if a.0.None? then (None, a.1)
    else
      var m1 := SkipWs(a.1);
      var m2 := SkipChar(m1, '-');
      var m3 := SkipChar(m2, '>');
      var b := ParseTerminalText(m3);
      if b.0.None? then (None, b.1)
      else
        var m4 := SkipWs(b.1);
        var m5 := SkipChar(m4, ',');
        (Some(Port(a.0.value.0, a.0.value.1, b.0.value.0, b.0.value.1)), m5)
  }

  /** The entry loop of one section, up to ';' or the end, stopping at the
      first terminal that does not parse. Returns every pair read (in range
      or not) and the rest. */
  function ScanPorts(t: string): (r: (seq<Port>, string))
    ensures |r.1| <= |t|
    decreases |t|
  {
    if Head(t) == '\0' || Head(t) == ';' then ([], t)
    else
      var e := ScanEntry(t);
      if e.0.None? then ([], e.1)
      else
        var rest := ScanPorts(e.1);
        ([e.0.value] + rest.0, rest.1)
  }

  /** Every pair the entry loop reads has a direction code and an index
      that parse_terminal can produce. */
  lemma {:induction false} ScanPortsValid(t: string)
    ensures ValidTokens(ScanPorts(t).0)
    decreases |t|
  {
    if Head(t) != '\0' && Head(t) != ';' {
      var e := ScanEntry(t);
      if e.0.Some? {
        ScanPortsValid(e.1);
        ValidTokensCons(e.0.value, ScanPorts(e.1).0);
      }
    }
  }

  /** A section body after its header: "(none)" or the entry loop. */
  function ParseBody(t: string): (r: (seq<Port>, string))
    ensures |r.1| <= |t|
  {
    var t1 := SkipWs(t);
    if StartsWith(t1, "(none)") then ([], t1[6..]) else ScanPorts(t1)
  }

  /** An optional ';', then the header (after blanks), then the body;
      None when the header is not there. */
  function ParseSection(r: string, header: string): (o: Option<(seq<Port>, string)>)
    ensures o.Some? ==> |o.value.1| <= |r|
  {
    var r1 := if Head(r) == ';' then r[1..] else r;
    var t := SkipWs(r1);
    if StartsWith(t, header) then Some(ParseBody(t[|header|..])) else None
  }

  function Bit(b: bool): byte {
    if b then 1 else 0
  }

  /** Flat indices of the pairs that maze_parse stores in the normal block. */
  function NormalSet(n: int, ts: seq<Port>): set<int> {
    set i | 0 <= i < |ts| && NormalInRange(n, ts[i]) :: NormalIdx(n, ts[i])
  }

  /** Edge indices of the pairs that maze_parse stores in an nx or ny block
      (directions are not looked at; si == di is dropped). */
  function EdgeSet(n: int, ts: seq<Port>): set<int> {
    set i | 0 <= i < |ts| && EdgeInRange(n, ts[i].si, ts[i].di) :: EdgeIdx(n, ts[i].si, ts[i].di)
  }

  function NormalBits(n: int, ts: seq<Port>): (r: seq<byte>)
    ensures |r| == NormalCount(n)
  {
    seq(NormalCount(n), k => Bit(k in NormalSet(n, ts)))
  }

  function EdgeBits(n: int, ts: seq<Port>): (r: seq<byte>)
    ensures |r| == EdgeCount(n)
  {
    seq(EdgeCount(n), k => Bit(k in EdgeSet(n, ts)))
  }

  /** A fresh table of nterm n with exactly the in-range pairs set. */
  function PortsOf(n: int, normal: seq<Port>, nx: seq<Port>, ny: seq<Port>): (r: seq<byte>)
    ensures |r| == TotalCount(n)
  {
    NormalBits(n, normal) + EdgeBits(n, nx) + EdgeBits(n, ny)
  }

  /** maze_parse: None (NULL) when the "normal:" header is missing; a missing
      "nx:" or "ny:" header ends the parse with what was read so far. */
  function ParseText(n: int, s: string): (r: Option<seq<byte>>)
    ensures r.None? <==> !StartsWith(SkipWs(s), "normal:")
    ensures r.Some? ==> |r.value| == TotalCount(n)
  {
    var t := SkipWs(s);
    if !StartsWith(t, "normal:") then None
    else
      var normal := ParseBody(t[7..]);
      match ParseSection(normal.1, "nx:")
      case None => Some(PortsOf(n, normal.0, [], []))
      case Some(nx) =>
        match ParseSection(nx.1, "ny:")
        case None => Some(PortsOf(n, normal.0, nx.0, []))
        case Some(ny) => Some(PortsOf(n, normal.0, nx.0, ny.0))
  }
}
