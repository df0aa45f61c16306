/** What the text format promises: maze_parse reads back exactly what
    maze_fprint writes, entries that do not fit the table are ignored, and
    missing nx/ny sections leave those blocks empty. */
module MazeTextLemmas {
  import opened Wrappers
  import opened Decimal
  import opened MazeDefs
  import opened MazeIndex
  import opened MazeText

  // ---------------------------------------------------------------------
  // Scanner steps
  // ---------------------------------------------------------------------

  lemma SkipWsCons(c: char, t: string)
    requires IsSpace(c)
    ensures SkipWs([c] + t) == SkipWs(t)
  {
    assert ([c] + t)[1..] == t;
  }

  lemma SkipWsNone(t: string)
    requires !IsSpace(Head(t))
    ensures SkipWs(t) == t
  {
  }

  lemma SkipWsIdem(t: string)
    ensures SkipWs(SkipWs(t)) == SkipWs(t)
  {
  }

  /** A run of digits followed by a non-digit is read up to its end. */
  lemma {:induction false} DigitRunOf(d: string, rest: string)
    requires AllDigits(d) && !IsDigit(Head(rest))
    ensures DigitRun(d + rest) == |d|
    decreases |d|
  {
    if |d| > 0 {
      assert (d + rest)[1..] == d[1..] + rest;
      DigitRunOf(d[1..], rest);
    } else {
      assert d + rest == rest;
    }
  }

  /** parse_terminal reads back a printed "%s%d" terminal. */
  lemma TerminalOf(d: int, i: nat, rest: string)
    requires 0 <= d < 4 && !IsDigit(Head(rest))
    ensures ParseTerminalText([DirChar(d)] + NatStr(i) + rest) == (Some((d, i)), rest)
  {
    var t := [DirChar(d)] + NatStr(i) + rest;
    var ds := NatStr(i);
    assert SkipWs(t) == t;
    assert t[1..] == ds + rest;
    DigitRunOf(ds, rest);
    assert (ds + rest)[..|ds|] == ds;
    assert (ds + rest)[|ds|..] == rest;
    NatStrValue(i);
  }

  /** Leading blanks do not change what parse_terminal reads. */
  lemma TerminalAfterBlank(t: string)
    ensures ParseTerminalText(" " + t) == ParseTerminalText(t)
  {
    SkipWsCons(' ', t);
  }

  lemma Assoc3(a: string, b: string, c: string)
    ensures a + b + c == a + (b + c)
  {
  }

  /** An entry is two terminals around "->". */
  lemma EntryOfParts(x: string, y: string, rest: string, a: (int, int), b: (int, int))
    requires ParseTerminalText(x) == (Some(a), "->" + y)
    requires ParseTerminalText(y) == (Some(b), rest)
    ensures ScanEntry(x) == (Some(Port(a.0, a.1, b.0, b.1)), SkipChar(SkipWs(rest), ','))
  {
    var tail := "->" + y;
    assert Head(tail) == '-';
    SkipWsNone(tail);
    assert SkipChar(tail, '-') == ">" + y;
    assert SkipChar(">" + y, '>') == y;
  }

  /** One printed entry and whatever follows it. */
  lemma EntryOf(p: Port, rest: string)
    requires ValidToken(p) && !IsDigit(Head(rest))
    ensures ScanEntry(TokText(p) + rest) == (Some(p), SkipChar(SkipWs(rest), ','))
  {
    var second := [DirChar(p.dd)] + NatStr(p.di);
    var tail := "->" + (second + rest);
    calc {
      TokText(p) + rest;
      ([DirChar(p.sd)] + NatStr(p.si) + "->" + second) + rest;
      { Assoc3([DirChar(p.sd)] + NatStr(p.si) + "->", second, rest); }
      ([DirChar(p.sd)] + NatStr(p.si) + "->") + (second + rest);
      { Assoc3([DirChar(p.sd)] + NatStr(p.si), "->", second + rest); }
      [DirChar(p.sd)] + NatStr(p.si) + tail;
    }
    TerminalOf(p.sd, p.si, tail);
    TerminalOf(p.dd, p.di, rest);
    EntryOfParts(TokText(p) + rest, second + rest, rest, (p.sd, p.si), (p.dd, p.di));
  }

  lemma SkipCharNone(t: string, c: char)
    requires Head(t) != c
    ensures SkipChar(t, c) == t
  {
  }

  lemma ScanPortsEnd(t: string)
    requires Head(t) == ';' || Head(t) == '\0'
    ensures ScanPorts(t) == ([], t)
  {
  }

  lemma ScanPortsStep(t: string, p: Port, u: string)
    requires Head(t) != ';' && Head(t) != '\0'
    requires ScanEntry(t) == (Some(p), u)
    ensures ScanPorts(t) == ([p] + ScanPorts(u).0, ScanPorts(u).1)
  {
  }

  /** A blank before an entry is skipped by parse_terminal. */
  lemma ScanPortsBlank(t: string)
    requires Head(t) != ';' && Head(t) != '\0'
    ensures ScanPorts(" " + t) == ScanPorts(t)
  {
    TerminalAfterBlank(t);
    assert ScanEntry(" " + t) == ScanEntry(t);
  }

  predicate AtSectionEnd(rest: string) {
    Head(SkipWs(rest)) == ';' || Head(SkipWs(rest)) == '\0'
  }

  lemma SectionEndNotDigit(rest: string)
    requires AtSectionEnd(rest)
    ensures !IsDigit(Head(rest))
  {
  }

  /** The loop reads one entry and then stops at ';' or the end. */
  lemma ScanLast(t: string, p: Port, u: string)
    requires Head(t) != ';' && Head(t) != '\0'
    requires ScanEntry(t) == (Some(p), u)
    requires Head(u) == ';' || Head(u) == '\0'
    ensures ScanPorts(t) == ([p], u)
  {
    ScanPortsStep(t, p, u);
    ScanPortsEnd(u);
    assert [p] + [] == [p];
  }

  /** The loop reads one entry, then a blank, then goes on with the next. */
  lemma ScanNext(t: string, p: Port, w: string)
    requires Head(t) != ';' && Head(t) != '\0'
    requires ScanEntry(t) == (Some(p), " " + w)
    requires Head(w) != ';' && Head(w) != '\0'
    ensures ScanPorts(t) == ([p] + ScanPorts(w).0, ScanPorts(w).1)
  {
    ScanPortsStep(t, p, " " + w);
    ScanPortsBlank(w);
  }

  lemma ConsTail<T>(ts: seq<T>)
    requires |ts| > 0
    ensures [ts[0]] + ts[1..] == ts
  {
  }

  lemma ScanJoinOne(ts: seq<Port>, rest: string)
    requires |ts| == 1 && ValidTokens(ts) && AtSectionEnd(rest)
    ensures ScanPorts(Join(ts) + rest) == (ts, SkipWs(rest))
  {
    SectionEndNotDigit(rest);
    JoinHead(ts, rest);
    EntryOf(ts[0], rest);
    SkipCharNone(SkipWs(rest), ',');
    ScanLast(Join(ts) + rest, ts[0], SkipWs(rest));
    ConsTail(ts);
  }

  lemma JoinHead(ts: seq<Port>, rest: string)
    requires |ts| > 0 && ValidTokens(ts)
    ensures Head(Join(ts) + rest) == DirChar(ts[0].sd)
    ensures Head(Join(ts) + rest) != ';' && Head(Join(ts) + rest) != '\0'
  {
  }

  lemma JoinSplit(ts: seq<Port>, rest: string)
    requires |ts| > 1 && ValidTokens(ts)
    ensures Join(ts) + rest == TokText(ts[0]) + (", " + (Join(ts[1..]) + rest))
  {
    var w := TokText(ts[0]);
    var j := Join(ts[1..]);
    assert Join(ts) == w + ", " + j;
    Assoc3(w, ", ", j);
    Assoc3(w + ", ", j, rest);
    Assoc3(w, ", ", j + rest);
  }

  /** An entry followed by ", ": the loop stops on the blank after the comma. */
  lemma EntryBeforeComma(p: Port, tail: string)
    requires ValidToken(p)
    ensures ScanEntry(TokText(p) + (", " + tail)) == (Some(p), " " + tail)
  {
    CommaBlank(tail);
    EntryOf(p, ", " + tail);
  }

  lemma CommaBlank(tail: string)
    ensures Head(", " + tail) == ','
    ensures SkipChar(SkipWs(", " + tail), ',') == " " + tail
  {
    var t := ", " + tail;
    assert t[0] == ',';
    SkipWsNone(t);
    assert t[1..] == " " + tail;
  }

  lemma ScanJoinStep(t: string, p: Port, tail: string, ts: seq<Port>, r: string)
    requires |ts| > 1 && ts[0] == p
    requires Head(t) != ';' && Head(t) != '\0'
    requires Head(tail) != ';' && Head(tail) != '\0'
    requires ScanEntry(t) == (Some(p), " " + tail)
    requires ScanPorts(tail) == (ts[1..], r)
    ensures ScanPorts(t) == (ts, r)
  {
    ScanNext(t, p, tail);
    ConsTail(ts);
  }

  lemma ScanJoinMore(ts: seq<Port>, rest: string)
    requires |ts| > 1 && ValidTokens(ts) && AtSectionEnd(rest)
    requires ScanPorts(Join(ts[1..]) + rest) == (ts[1..], SkipWs(rest))
    ensures ScanPorts(Join(ts) + rest) == (ts, SkipWs(rest))
  {
    var tail := Join(ts[1..]) + rest;
    JoinSplit(ts, rest);
    JoinHead(ts, rest);
    JoinHead(ts[1..], rest);
    EntryBeforeComma(ts[0], tail);
    ScanJoinStep(Join(ts) + rest, ts[0], tail, ts, SkipWs(rest));
  }

  /** The entry loop reads back a ", "-joined list of printed entries. */
  lemma {:induction false} ScanJoin(ts: seq<Port>, rest: string)
    requires |ts| > 0 && ValidTokens(ts) && AtSectionEnd(rest)
    ensures ScanPorts(Join(ts) + rest) == (ts, SkipWs(rest))
    decreases |ts|
  {
    if |ts| == 1 {
      ScanJoinOne(ts, rest);
    } else {
      ScanJoin(ts[1..], rest);
      ScanJoinMore(ts, rest);
    }
  }

  // ---------------------------------------------------------------------
  // Sections
  // ---------------------------------------------------------------------

  lemma BodyNone(rest: string)
    ensures ParseBody(" (none)" + rest) == ([], rest)
  {
    var t := " (none)" + rest;
    SkipWsCons(' ', "(none)" + rest);
    assert t == [' '] + ("(none)" + rest);
    assert Head("(none)" + rest) == '(';
    SkipWsNone("(none)" + rest);
    assert ("(none)" + rest)[..6] == "(none)";
    assert ("(none)" + rest)[6..] == rest;
  }

  lemma BodyList(ts: seq<Port>, rest: string)
    requires |ts| > 0 && ValidTokens(ts)
    ensures ParseBody(" " + (Join(ts) + rest)) == ScanPorts(Join(ts) + rest)
  {
    var x := Join(ts) + rest;
    JoinHead(ts, rest);
    SkipWsCons(' ', x);
    SkipWsNone(x);
    assert x[0] != '(';
    assert !StartsWith(x, "(none)") by {
      if |x| >= 6 {
        assert x[..6][0] == x[0];
      }
    }
  }

  lemma GroupSplit(ts: seq<Port>, rest: string)
    requires |ts| > 0 && ValidTokens(ts)
    ensures GroupText(ts) + rest == " " + (Join(ts) + rest)
  {
    Assoc3(" ", Join(ts), rest);
  }

  /** A printed group body and the text after it. */
  lemma BodyOf(ts: seq<Port>, rest: string)
    requires ValidTokens(ts) && AtSectionEnd(rest)
    ensures ParseBody(GroupText(ts) + rest).0 == ts
    ensures !IsSpace(Head(rest)) ==> ParseBody(GroupText(ts) + rest).1 == rest
  {
    if ts == [] {
      BodyNone(rest);
    } else {
      GroupSplit(ts, rest);
      BodyList(ts, rest);
      ScanJoin(ts, rest);
      if !IsSpace(Head(rest)) {
        SkipWsNone(rest);
      }
    }
  }

  /** A section's lead-in "; header" followed by a body. */
  lemma SectionAfter(lead: string, header: string, body: string)
    requires |header| > 0 && !IsSpace(header[0]) && lead == "; " + header
    ensures ParseSection(lead + body, header) == Some(ParseBody(body))
  {
    var r := lead + body;
    assert Head(r) == ';';
    assert r[1..] == [' '] + (header + body);
    SkipWsCons(' ', header + body);
    HeaderOf(header, body);
  }

  lemma HeaderOf(header: string, body: string)
    requires |header| > 0 && !IsSpace(header[0])
    ensures SkipWs(header + body) == header + body
    ensures StartsWith(header + body, header) && (header + body)[|header|..] == body
  {
    assert Head(header + body) == header[0];
    SkipWsNone(header + body);
    assert (header + body)[..|header|] == header;
  }

  /** How maze_parse composes its sections. */
  lemma ParseTextOf(n: int, s: string, normal: seq<Port>, r1: string,
                    nx: seq<Port>, r2: string, ny: seq<Port>, r3: string)
    requires StartsWith(SkipWs(s), "normal:")
    requires ParseBody(SkipWs(s)[7..]) == (normal, r1)
    requires ParseSection(r1, "nx:") == Some((nx, r2))
    requires ParseSection(r2, "ny:") == Some((ny, r3))
    ensures ParseText(n, s) == Some(PortsOf(n, normal, nx, ny))
  {
  }

  /** A group followed by the next "; header". */
  lemma GroupThen(ts: seq<Port>, next: string)
    requires ValidTokens(ts) && Head(next) == ';'
    ensures ParseBody(GroupText(ts) + next) == (ts, next)
  {
    SkipWsNone(next);
    BodyOf(ts, next);
  }

  /** A "; header" section holding a printed group parses to that group. */
  lemma SectionGroup(lead: string, header: string, ts: seq<Port>, rest: string)
    requires |header| > 0 && !IsSpace(header[0]) && lead == "; " + header
    requires ValidTokens(ts) && AtSectionEnd(rest)
    ensures ParseSection(lead + (GroupText(ts) + rest), header) ==
            Some((ts, ParseBody(GroupText(ts) + rest).1))
  {
    SectionAfter(lead, header, GroupText(ts) + rest);
    BodyOf(ts, rest);
  }

  /** A "; header" section holding a printed group and followed by the next
      "; header" parses to that group, leaving the next section. */
  lemma SectionGroupThen(lead: string, header: string, ts: seq<Port>, next: string)
    requires |header| > 0 && !IsSpace(header[0]) && lead == "; " + header
    requires ValidTokens(ts) && Head(next) == ';'
    ensures ParseSection(lead + (GroupText(ts) + next), header) == Some((ts, next))
  {
    SectionAfter(lead, header, GroupText(ts) + next);
    GroupThen(ts, next);
  }

  /** The nx and ny lead-ins are "; " and the section's header. */
  lemma Leads()
    ensures "; nx:" == "; " + "nx:" && !IsSpace('n')
    ensures "; ny:" == "; " + "ny:"
  {
  }

  /** Any three printed groups, in maze_fprint's layout and followed by
      nothing but blanks or a ';', parse to the table holding exactly the
      in-range entries of each group. */
  lemma ParseGroups(n: int, normal: seq<Port>, nx: seq<Port>, ny: seq<Port>, end: string)
    requires ValidTokens(normal) && ValidTokens(nx) && ValidTokens(ny) && AtSectionEnd(end)
    ensures ParseText(n, MazeLine(GroupText(normal), GroupText(nx), GroupText(ny), end)) ==
            Some(PortsOf(n, normal, nx, ny))
  {
    var r3 := "; ny:" + (GroupText(ny) + end);
    var r2 := "; nx:" + (GroupText(nx) + r3);
    var r1 := GroupText(normal) + r2;
    HeaderOf("normal:", r1);
    GroupThen(normal, r2);
    Leads();
    SectionGroupThen("; nx:", "nx:", nx, r3);
    SectionGroup("; ny:", "ny:", ny, end);
    ParseTextOf(n, "normal:" + r1, normal, r2, nx, r3, ny, ParseBody(GroupText(ny) + end).1);
  }

  /** Only blanks after the normal group: nx and ny stay empty. */
  lemma NoSection(r: string, header: string)
    requires SkipWs(r) == [] && |header| > 0
    ensures ParseSection(r, header) == None
  {
  }

  lemma {:induction false} MissingSections(n: int, normal: seq<Port>, end: string)
    requires ValidTokens(normal) && SkipWs(end) == []
    ensures ParseText(n, "normal:" + (GroupText(normal) + end)) == Some(PortsOf(n, normal, [], []))
  {
    var r1 := GroupText(normal) + end;
    HeaderOf("normal:", r1);
    BodyOf(normal, end);
    var rest := ParseBody(r1).1;
    assert SkipWs(rest) == [] by {
      if normal == [] {
        BodyNone(end);
      } else {
        GroupSplit(normal, end);
        BodyList(normal, end);
        ScanJoin(normal, end);
      }
    }
    NoSection(rest, "nx:");
  }

  // ---------------------------------------------------------------------
  // Which ports a group sets
  // ---------------------------------------------------------------------

  /** An entry adds its own flat index when it fits the table and nothing
      otherwise. */
  lemma NormalSetSnoc(n: int, ts: seq<Port>, p: Port)
    ensures NormalSet(n, ts + [p]) ==
            NormalSet(n, ts) + (if NormalInRange(n, p) then {NormalIdx(n, p)} else {})
  {
    var u := ts + [p];
    var extra: set<int> := if NormalInRange(n, p) then {NormalIdx(n, p)} else {};
    forall x | x in NormalSet(n, u)
      ensures x in NormalSet(n, ts) + extra
    {
      var i :| 0 <= i < |u| && NormalInRange(n, u[i]) && NormalIdx(n, u[i]) == x;
      if i < |ts| {
        assert u[i] == ts[i];
      } else {
        assert u[i] == p;
      }
    }
    forall x | x in NormalSet(n, ts) + extra
      ensures x in NormalSet(n, u)
    {
      if x in NormalSet(n, ts) {
        var i :| 0 <= i < |ts| && NormalInRange(n, ts[i]) && NormalIdx(n, ts[i]) == x;
        assert u[i] == ts[i];
      } else {
        assert u[|ts|] == p;
      }
    }
  }

  lemma EdgeSetSnoc(n: int, ts: seq<Port>, p: Port)
    ensures EdgeSet(n, ts + [p]) ==
            EdgeSet(n, ts) + (if EdgeInRange(n, p.si, p.di) then {EdgeIdx(n, p.si, p.di)} else {})
  {
    var u := ts + [p];
    var extra: set<int> := if EdgeInRange(n, p.si, p.di) then {EdgeIdx(n, p.si, p.di)} else {};
    forall x | x in EdgeSet(n, u)
      ensures x in EdgeSet(n, ts) + extra
    {
      var i :| 0 <= i < |u| && EdgeInRange(n, u[i].si, u[i].di) && EdgeIdx(n, u[i].si, u[i].di) == x;
      if i < |ts| {
        assert u[i] == ts[i];
      } else {
        assert u[i] == p;
      }
    }
    forall x | x in EdgeSet(n, ts) + extra
      ensures x in EdgeSet(n, u)
    {
      if x in EdgeSet(n, ts) {
        var i :| 0 <= i < |ts| && EdgeInRange(n, ts[i].si, ts[i].di) && EdgeIdx(n, ts[i].si, ts[i].di) == x;
        assert u[i] == ts[i];
      } else {
        assert u[|ts|] == p;
      }
    }
  }

  /** maze_parse ignores a normal entry outside the table and an nx/ny entry
      outside it or with si == di. */
  lemma IgnoredEntries(n: int, ts: seq<Port>, p: Port)
    ensures !NormalInRange(n, p) ==> NormalBits(n, ts + [p]) == NormalBits(n, ts)
    ensures !EdgeInRange(n, p.si, p.di) ==> EdgeBits(n, ts + [p]) == EdgeBits(n, ts)
  {
    NormalSetSnoc(n, ts, p);
    EdgeSetSnoc(n, ts, p);
  }

  /** The printed normal group names exactly the set normal ports. */
  lemma {:induction false} NormalSetUpTo(n: int, ports: seq<byte>, k: nat)
    requires n >= 0 && k <= NormalCount(n) <= |ports|
    ensures forall j :: j in NormalSet(n, NormalTokensUpTo(n, ports, k)) <==> 0 <= j < k && ports[j] != 0
  {
    if k > 0 {
      var a := NormalTokensUpTo(n, ports, k - 1);
      NormalSetUpTo(n, ports, k - 1);
      if ports[k - 1] != 0 {
        NormalSetSnoc(n, a, NormalDecode(n, k - 1));
      } else {
        assert NormalTokensUpTo(n, ports, k) == a + [] == a;
      }
    }
  }

  /** The printed nx or ny group names exactly the set ports of that block. */
  lemma {:induction false} EdgeSetUpTo(n: int, ports: seq<byte>, base: nat, dir: int, k: nat)
    requires n >= 0 && k <= EdgeCount(n) && base + EdgeCount(n) <= |ports| && 0 <= dir < 4
    ensures forall j :: j in EdgeSet(n, EdgeTokensUpTo(n, ports, base, dir, k)) <==>
                        0 <= j < k && ports[base + j] != 0
  {
    if k > 0 {
      var a := EdgeTokensUpTo(n, ports, base, dir, k - 1);
      EdgeSetUpTo(n, ports, base, dir, k - 1);
      var e := EdgeDecode(n, k - 1);
      if ports[base + k - 1] != 0 {
        EdgeSetSnoc(n, a, Port(dir, e.0, dir, e.1));
      } else {
        assert EdgeTokensUpTo(n, ports, base, dir, k) == a + [] == a;
      }
    }
  }

  /** A bit sequence that has a 1 exactly at the members of S, when S
      holds the positions of the non-zero bytes of a slice, is that slice
      normalized. */
  lemma BitsOfSet(S: set<int>, ports: seq<byte>, base: nat, count: nat, L: seq<byte>)
    requires base + count <= |ports| && |L| == count
    requires forall k :: 0 <= k < count ==> L[k] == Bit(k in S)
    requires forall j :: j in S <==> 0 <= j < count && ports[base + j] != 0
    ensures L == Normalized(ports)[base..base + count]
  {
    var R := Normalized(ports)[base..base + count];
    forall i | 0 <= i < count
      ensures L[i] == R[i]
    {
      assert R[i] == Norm(ports[base + i]);
    }
  }

  lemma NormalBitsRoundTrip(n: int, ports: seq<byte>)
    requires n >= 0 && |ports| == TotalCount(n)
    ensures NormalBits(n, NormalTokens(n, ports)) == Normalized(ports)[..NormalCount(n)]
  {
    var ts := NormalTokens(n, ports);
    NormalSetUpTo(n, ports, NormalCount(n));
    BitsOfSet(NormalSet(n, ts), ports, 0, NormalCount(n), NormalBits(n, ts));
    assert Normalized(ports)[0..NormalCount(n)] == Normalized(ports)[..NormalCount(n)];
  }

  lemma EdgeBitsRoundTrip(n: int, ports: seq<byte>, base: nat, dir: int)
    requires n >= 0 && base + EdgeCount(n) <= |ports| && 0 <= dir < 4
    ensures EdgeBits(n, EdgeTokensUpTo(n, ports, base, dir, EdgeCount(n))) ==
            Normalized(ports)[base..base + EdgeCount(n)]
  {
    var ts := EdgeTokensUpTo(n, ports, base, dir, EdgeCount(n));
    EdgeSetUpTo(n, ports, base, dir, EdgeCount(n));
    BitsOfSet(EdgeSet(n, ts), ports, base, EdgeCount(n), EdgeBits(n, ts));
  }

  lemma NxBitsRoundTrip(n: int, ports: seq<byte>)
    requires n >= 0 && |ports| == TotalCount(n)
    ensures EdgeBits(n, NxTokens(n, ports)) ==
            Normalized(ports)[NormalCount(n)..NormalCount(n) + EdgeCount(n)]
  {
    EdgeBitsRoundTrip(n, ports, NormalCount(n), TDirE);
  }

  lemma NyBitsRoundTrip(n: int, ports: seq<byte>)
    requires n >= 0 && |ports| == TotalCount(n)
    ensures EdgeBits(n, NyTokens(n, ports)) == Normalized(ports)[NormalCount(n) + EdgeCount(n)..]
  {
    var base := NormalCount(n) + EdgeCount(n);
    EdgeBitsRoundTrip(n, ports, base, TDirN);
    SliceToEnd(Normalized(ports), base, EdgeCount(n));
  }

  lemma SliceToEnd<T>(q: seq<T>, base: nat, count: nat)
    requires base + count == |q|
    ensures q[base..base + count] == q[base..]
  {
  }

  /** A sequence of length u + v + v is its three consecutive slices. */
  lemma Split3<T>(s: seq<T>, u: nat, v: nat, a: seq<T>, b: seq<T>, c: seq<T>)
    requires |s| == u + v + v && a == s[..u] && b == s[u..u + v] && c == s[u + v..]
    ensures a + b + c == s
  {
    assert s == s[..u] + s[u..u + v] + s[u + v..];
  }

  /** Storing the printed groups gives back the table, every non-zero byte
      as 1. */
  lemma TokensRoundTrip(n: int, ports: seq<byte>)
    requires n >= 0 && |ports| == TotalCount(n)
    ensures PortsOf(n, NormalTokens(n, ports), NxTokens(n, ports), NyTokens(n, ports)) ==
            Normalized(ports)
  {
    NormalBitsRoundTrip(n, ports);
    NxBitsRoundTrip(n, ports);
    NyBitsRoundTrip(n, ports);
    Split3(Normalized(ports), NormalCount(n), EdgeCount(n),
           NormalBits(n, NormalTokens(n, ports)),
           EdgeBits(n, NxTokens(n, ports)), EdgeBits(n, NyTokens(n, ports)));
  }

  /** maze_parse(nterm, maze_fprint(m)) holds the ports of m, each as 0/1. */
  lemma FormatParse(n: int, ports: seq<byte>)
    requires n >= 0 && |ports| == TotalCount(n)
    ensures ParseText(n, FormatText(n, ports)) == Some(Normalized(ports))
  {
    assert SkipWs("\n") == [];
    ParseGroups(n, NormalTokens(n, ports), NxTokens(n, ports), NyTokens(n, ports), "\n");
    TokensRoundTrip(n, ports);
  }

  /** For a 0/1 table the round trip is exact. */
  lemma FormatParseBinary(n: int, ports: seq<byte>)
    requires n >= 0 && |ports| == TotalCount(n) && IsBinary(ports)
    ensures ParseText(n, FormatText(n, ports)) == Some(ports)
  {
    FormatParse(n, ports);
    NormalizedBinary(ports);
  }
}
