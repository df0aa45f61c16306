/** analysis/minsky_doubling.py: the exact walk length of a maze that runs a
    Minsky counter machine doubling a counter k times, the number of
    terminal indices its layout needs, the length of the polynomial
    "counter pump" baseline, and the generator of the maze text itself. */
module MinskyDoubling {
  import opened DivMod
  import opened MazeDefs
  import opened MazeIndex
  import opened MazeText

  // ---------------------------------------------------------------------
  // compute_path_length
  // ---------------------------------------------------------------------

  /** The counter after i doubling cycles: y[0] = 1, y[i] = 1 + 2*y[i-1]. */
  function Y(i: nat): nat {
    if i == 0 then 1 else 1 + 2 * Y(i - 1)
  }

  /** The recurrence has the closed form 2^(i+1) - 1. */
  lemma {:induction false} YClosedForm(i: nat)
    ensures Y(i) == Pow2(i + 1) - 1
  {
    if i > 0 {
      YClosedForm(i - 1);
    }
  }

  /** Steps of one doubling cycle entered with counter y: the W->N entry,
      phase 1 (4 per unit of y), the ny catch, the S->E bridge and
      phase 2 (3 per unit of x_after - 1, then the last DEC_X and the nx
      catch). */
  function CycleCost(y: int): (r: int)
    ensures r == 5 + 10 * y
  {
    var xAfter := 1 + 2 * y;
    1 + 4 * y + 1 + 1 + (3 * (xAfter - 1) + 1 + 1)
  }

  /** Steps of phase 3 with final counter y: transition, y decrements,
      ny catch, bridge and goal. */
  function FinalCost(y: int): (r: int)
    ensures r == 4 + y
  {
    1 + y + 1 + 1 + 1
  }

  /** Steps of the first k doubling cycles. */
  function CyclesCost(k: nat): int {
    if k == 0 then 0 else CyclesCost(k - 1) + CycleCost(Y(k - 1))
  }

  /** The total that compute_path_length returns for k cycles. */
  function PathLength(k: nat): int {
    CyclesCost(k) + FinalCost(Y(k))
  }

  lemma {:induction false} CyclesClosedForm(k: nat)
    ensures CyclesCost(k) == 10 * Pow2(k + 1) - 5 * k - 20
  {
    if k > 0 {
      CyclesClosedForm(k - 1);
      YClosedForm(k - 1);
    }
  }

  /** The path length in closed form: 11 * 2^(k+1) - 5k - 17, so 5 for
      the zero-cycle case and 22 for one cycle. */
  lemma PathClosedForm(k: nat)
    ensures PathLength(k) == 11 * Pow2(k + 1) - 5 * k - 17
  {
    CyclesClosedForm(k);
    YClosedForm(k);
  }

  /** One more cycle always lengthens the walk. */
  lemma PathStep(k: nat)
    ensures PathLength(k) < PathLength(k + 1)
  {
    assert Y(k + 1) > Y(k);
  }

  /** The path length is strictly increasing in k. */
  lemma {:induction false} PathIncreasing(k: nat, k': nat)
    requires k < k'
    ensures PathLength(k) < PathLength(k')
    decreases k' - k
  {
    PathStep(k);
    if k + 1 < k' {
      PathIncreasing(k + 1, k');
    }
  }

  /** compute_path_length: fills y[0..k], then adds up the cycles and the
      final phase. A negative k faults in the source (y[0] on an empty
      list). */
  method ComputePathLength(k: int) returns (total: int, yFinal: int)
    requires k >= 0
    ensures total == PathLength(k) && yFinal == Y(k)
  {
    var y := new int[k + 1](_ => 0);
    y[0] := 1;
    for i := 1 to k + 1
      invariant forall j {:trigger y[j]} :: 0 <= j < i ==> y[j] == Y(j)
    {
      y[i] := 1 + 2 * y[i - 1];
    }
    total := 0;
    for i := 0 to k
      invariant total == CyclesCost(i)
    {
      var yi := y[i];
      var xAfter := 1 + 2 * yi;
      var transition := 1;
      var p1 := 4 * yi;
      var nyCatch := 1;
      var bridge := 1;
      var p2 := 3 * (xAfter - 1) + 1 + 1;
      assert transition + p1 + nyCatch + bridge + p2 == CycleCost(Y(i));
      total := total + transition + p1 + nyCatch + bridge + p2;
    }
    total := total + 1 + y[k] + 1 + 1 + 1;
    yFinal := y[k];
  }

  // ---------------------------------------------------------------------
  // nterm_for_k and counter_pump_length
  // ---------------------------------------------------------------------

  /** nterm_for_k: 15, 25, 37 for k = 1, 2, 3, else 37 + 12(k - 3); every
      k but 1 gets 12k + 1. */
  function NtermForK(k: int): (n: int)
    ensures n == if k == 1 then 15 else 12 * k + 1
  {
    if k == 1 then 15
    else if k == 2 then 25
    else if k == 3 then 37
    else 37 + 12 * (k - 3)
  }

  /** counter_pump_length: (n - 1)(2n^2 - 3n - 2) - 3, which factors as
      (n - 1)(n - 2)(2n + 1) - 3; so -3 at n = 1 and n = 2, and positive
      from n = 3 on. */
  function CounterPumpLength(n: int): (t: int)
    ensures t == (n - 1) * (n - 2) * (2 * n + 1) - 3
    ensures n == 1 ==> t == -3
  {
    assert 2 * n * n - 3 * n - 2 == (n - 2) * (2 * n + 1);
    (n - 1) * (2 * n * n - 3 * n - 2) - 3
  }

  /** From n = 3 on the counter pump has a positive length. */
  lemma CounterPumpPositive(n: int)
    requires n >= 3
    ensures CounterPumpLength(n) > 0
  {
    assert (n - 1) * (n - 2) >= 2 by {
      assert (n - 1) * (n - 2) == (n - 2) * (n - 2) + (n - 2);
      assert (n - 2) * (n - 2) >= 1 * (n - 2);
    }
    assert (n - 1) * (n - 2) * (2 * n + 1) >= 2 * (2 * n + 1);
  }

  // ---------------------------------------------------------------------
  // generate_maze_string
  // ---------------------------------------------------------------------

  /** The base indices of one doubling cycle: phase 1 at a..a+3, phase 2
      at b..b+3, the nx catch at c. */
  datatype Cycle = Cycle(a: int, b: int, c: int)

  /** The triple of cycle i (1-based): (2, 7, 11) for the first, then
      a = 15 + 12(i - 2), b = a + 5, c = a + 9. */
  function CycleParams(i: int): (cy: Cycle)
    requires i >= 1
    ensures cy.b == cy.a + 5 && cy.c == cy.a + 9
    ensures i >= 2 ==> cy.a == 12 * i - 9
  {
    if i == 1 then Cycle(2, 7, 11)
    else
      var a := 15 + 12 * (i - 2);
      Cycle(a, a + 5, a + 9)
  }

  /** The cycles occupy disjoint, increasing index ranges [a, a + 9]: a
      later cycle starts past the end of an earlier one. */
  lemma CyclesDisjoint(i: int, j: int)
    requires 1 <= i < j
    ensures CycleParams(i).c < CycleParams(j).a
  {
  }

  /** No cycle touches the start and goal indices 0 and 1 nor the phase 3
      indices 12..14. */
  lemma CycleAvoidsReserved(i: int)
    requires i >= 1
    ensures 2 <= CycleParams(i).a
    ensures CycleParams(i).c < 12 || 14 < CycleParams(i).a
  {
  }

  /** Phase 3 indices: the head, the ny exit and the bridge. */
  const P3Head: int := 12
  const P3NyOut: int := 13
  const P3Bridge: int := 14

  /** The index whose W terminal enters cycle ci (0-based): the start
      index 0 for the first cycle, the previous cycle's c after that. */
  function EntryIndex(ci: nat): int {
    if ci == 0 then 0 else CycleParams(ci).c
  }

  /** Phase 1 of a cycle with head a: N_a->E_{a+1}, W_{a+1}->E_{a+2},
      W_{a+2}->N_{a+3}, N_{a+3}->S_a. */
  function Phase1(a: int): seq<Port> {
    [Port(TDirN, a, TDirE, a + 1), Port(TDirW, a + 1, TDirE, a + 2),
     Port(TDirW, a + 2, TDirN, a + 3), Port(TDirN, a + 3, TDirS, a)]
  }

  /** Phase 2 of a cycle with bridge b: S_b->E_{b+1}, E_{b+1}->W_{b+2},
      E_{b+2}->N_{b+3}, S_{b+3}->E_{b+1}. */
  function Phase2(b: int): seq<Port> {
    [Port(TDirS, b, TDirE, b + 1), Port(TDirE, b + 1, TDirW, b + 2),
     Port(TDirE, b + 2, TDirN, b + 3), Port(TDirS, b + 3, TDirE, b + 1)]
  }

  /** The normal ports of one cycle: the entry W_entry->N_a, phase 1,
      phase 2. */
  function CycleNormal(entry: int, cy: Cycle): (ts: seq<Port>)
    ensures |ts| == 9
  {
    [Port(TDirW, entry, TDirN, cy.a)] + Phase1(cy.a) + Phase2(cy.b)
  }

  /** Phase 3 after the last cycle's c: W_c->N12, N12->S12, S13->E14,
      E14->W1 (the goal). */
  function Phase3(lastC: int): seq<Port> {
    [Port(TDirW, lastC, TDirN, P3Head), Port(TDirN, P3Head, TDirS, P3Head),
     Port(TDirS, P3NyOut, TDirE, P3Bridge), Port(TDirE, P3Bridge, TDirW, 1)]
  }

  /** Normal, nx and ny ports of the first j cycles, in emission order. */
  function NormalUpTo(j: nat): (ts: seq<Port>)
    ensures |ts| == 9 * j
  {
    if j == 0 then [] else NormalUpTo(j - 1) + CycleNormal(EntryIndex(j - 1), CycleParams(j))
  }

  function NxUpTo(j: nat): (ts: seq<Port>)
    ensures |ts| == j
  {
    if j == 0 then []
    else
      var cy := CycleParams(j);
      NxUpTo(j - 1) + [Port(TDirE, cy.b + 2, TDirE, cy.c)]
  }

  function NyUpTo(j: nat): (ts: seq<Port>)
    ensures |ts| == j
  {
    if j == 0 then []
    else
      var cy := CycleParams(j);
      NyUpTo(j - 1) + [Port(TDirN, cy.a, TDirN, cy.b)]
  }

  /** The three port groups generate_maze_string emits for k cycles. */
  function NormalGroup(k: int): (ts: seq<Port>)
    requires k >= 1
    ensures |ts| == 9 * k + 4
  {
    NormalUpTo(k) + Phase3(CycleParams(k).c)
  }

  function NxGroup(k: int): (ts: seq<Port>)
    requires k >= 1
    ensures |ts| == k
  {
    NxUpTo(k)
  }

  function NyGroup(k: int): (ts: seq<Port>)
    requires k >= 1
    ensures |ts| == k + 1
  {
    NyUpTo(k) + [Port(TDirN, P3Head, TDirN, P3NyOut)]
  }

  /** Every port of a group names a direction code and an index in
      [0, bound). */
  predicate Within(ts: seq<Port>, bound: int) {
    forall i :: 0 <= i < |ts| ==>
      0 <= ts[i].sd < 4 && 0 <= ts[i].dd < 4 && 0 <= ts[i].si < bound && 0 <= ts[i].di < bound
  }

  lemma WithinConcat(s: seq<Port>, t: seq<Port>, bound: int)
    requires Within(s, bound) && Within(t, bound)
    ensures Within(s + t, bound)
  {
  }

  lemma WithinValid(ts: seq<Port>, bound: int)
    requires Within(ts, bound)
    ensures ValidTokens(ts)
  {
  }

  /** Cycle j emits indices from its entry up to its c only. */
  lemma CycleWithin(j: int, bound: int)
    requires j >= 1 && CycleParams(j).c < bound
    ensures Within(CycleNormal(EntryIndex(j - 1), CycleParams(j)), bound)
    ensures Within([Port(TDirE, CycleParams(j).b + 2, TDirE, CycleParams(j).c)], bound)
    ensures Within([Port(TDirN, CycleParams(j).a, TDirN, CycleParams(j).b)], bound)
  {
    if j > 1 {
      CyclesDisjoint(j - 1, j);
    }
  }

  /** A bound above cycle j's c bounds every index of the first j cycles. */
  lemma {:induction false} UpToWithin(j: nat, bound: int)
    requires j >= 1 ==> CycleParams(j).c < bound
    ensures Within(NormalUpTo(j), bound)
    ensures Within(NxUpTo(j), bound)
    ensures Within(NyUpTo(j), bound)
  {
    if j > 0 {
      if j > 1 {
        CyclesDisjoint(j - 1, j);
      }
      UpToWithin(j - 1, bound);
      CycleWithin(j, bound);
      WithinConcat(NormalUpTo(j - 1), CycleNormal(EntryIndex(j - 1), CycleParams(j)), bound);
      WithinConcat(NxUpTo(j - 1), [Port(TDirE, CycleParams(j).b + 2, TDirE, CycleParams(j).c)], bound);
      WithinConcat(NyUpTo(j - 1), [Port(TDirN, CycleParams(j).a, TDirN, CycleParams(j).b)], bound);
    }
  }

  /** The ports after the last cycle use its c and indices 1, 12, 13, 14. */
  lemma Phase3Within(k: int)
    requires k >= 1
    ensures Within(NormalGroup(k)[9 * k..], NtermForK(k))
    ensures Within([Port(TDirN, P3Head, TDirN, P3NyOut)], NtermForK(k))
  {
    assert NormalGroup(k)[9 * k..] == Phase3(CycleParams(k).c);
  }

  /** Every index the generator emits is below nterm_for_k(k), and the
      bound is tight: some port uses index nterm - 1 (the last c, or the
      phase 3 bridge 14 when k = 1). */
  lemma GroupsWithinNterm(k: int)
    requires k >= 1
    ensures Within(NormalGroup(k), NtermForK(k))
    ensures Within(NxGroup(k), NtermForK(k))
    ensures Within(NyGroup(k), NtermForK(k))
    ensures k == 1 ==> NormalGroup(k)[9 * k + 2].di == NtermForK(k) - 1
    ensures k >= 2 ==> NxGroup(k)[k - 1].di == NtermForK(k) - 1
  {
    var n := NtermForK(k);
    UpToWithin(k, n);
    Phase3Within(k);
    assert NormalGroup(k) == NormalUpTo(k) + NormalGroup(k)[9 * k..];
    WithinConcat(NormalUpTo(k), NormalGroup(k)[9 * k..], n);
    WithinConcat(NyUpTo(k), [Port(TDirN, P3Head, TDirN, P3NyOut)], n);
  }

  /** Where each cycle is entered: the first from W0, cycle i > 0 from the
      W terminal of cycle i - 1's c; phase 3 is entered from the last c. */
  lemma {:induction false} EntryPorts(j: nat, i: nat)
    requires i < j
    ensures NormalUpTo(j)[9 * i] == Port(TDirW, EntryIndex(i), TDirN, CycleParams(i + 1).a)
  {
    if i < j - 1 {
      EntryPorts(j - 1, i);
      assert NormalUpTo(j)[9 * i] == NormalUpTo(j - 1)[9 * i];
    }
  }

  lemma LastEntry(k: int)
    requires k >= 1
    ensures NormalGroup(k)[9 * k] == Port(TDirW, CycleParams(k).c, TDirN, P3Head)
    ensures EntryIndex(0) == 0
  {
  }

  /** The one-cycle maze: W0->N2, N2->E3, W3->E4, W4->N5, N5->S2, S7->E8,
      E8->W9, E9->N10, S10->E8, W11->N12, N12->S12, S13->E14, E14->W1;
      nx E9->E11; ny N2->N7, N12->N13. */
  lemma OneCycleGroups()
    ensures NormalGroup(1) ==
      [Port(TDirW, 0, TDirN, 2), Port(TDirN, 2, TDirE, 3), Port(TDirW, 3, TDirE, 4),
       Port(TDirW, 4, TDirN, 5), Port(TDirN, 5, TDirS, 2), Port(TDirS, 7, TDirE, 8),
       Port(TDirE, 8, TDirW, 9), Port(TDirE, 9, TDirN, 10), Port(TDirS, 10, TDirE, 8),
       Port(TDirW, 11, TDirN, 12), Port(TDirN, 12, TDirS, 12), Port(TDirS, 13, TDirE, 14),
       Port(TDirE, 14, TDirW, 1)]
    ensures NxGroup(1) == [Port(TDirE, 9, TDirE, 11)]
    ensures NyGroup(1) == [Port(TDirN, 2, TDirN, 7), Port(TDirN, 12, TDirN, 13)]
  {
    assert NormalUpTo(1) == CycleNormal(0, Cycle(2, 7, 11));
  }

  /** The maze text for k cycles: "normal: ...; nx: ...; ny: ...". */
  function DoublingText(k: int): string
    requires k >= 1
  {
    GroupsWithinNterm(k);
    WithinValid(NormalGroup(k), NtermForK(k));
    WithinValid(NxGroup(k), NtermForK(k));
    WithinValid(NyGroup(k), NtermForK(k));
    "normal: " + Join(NormalGroup(k)) + "; nx: " + Join(NxGroup(k)) + "; ny: " + Join(NyGroup(k))
  }

  /** One cycle's emissions, appended as the source appends them. */
  lemma CycleStep(ci: nat, normal: seq<Port>, nx: seq<Port>, ny: seq<Port>)
    requires normal == NormalUpTo(ci) && nx == NxUpTo(ci) && ny == NyUpTo(ci)
    ensures NormalUpTo(ci + 1) == normal + CycleNormal(EntryIndex(ci), CycleParams(ci + 1))
    ensures NxUpTo(ci + 1) == nx + [Port(TDirE, CycleParams(ci + 1).b + 2, TDirE, CycleParams(ci + 1).c)]
    ensures NyUpTo(ci + 1) == ny + [Port(TDirN, CycleParams(ci + 1).a, TDirN, CycleParams(ci + 1).b)]
  {
  }

  lemma Append3<T>(s: seq<T>, a: seq<T>, b: seq<T>, c: seq<T>)
    ensures s + a + b + c == s + (a + b + c)
  {
  }

  lemma Append4<T>(s: seq<T>, a: T, b: T, c: T, d: T)
    ensures s + [a] + [b] + [c] + [d] == s + [a, b, c, d]
  {
  }

  /** The cycle_params list: (2, 7, 11) when k >= 1, then one triple per
      cycle 2..k. */
  method CycleTriples(k: int) returns (cycleParams: seq<Cycle>)
    ensures |cycleParams| == if k >= 1 then k else 0
    ensures forall j :: 0 <= j < |cycleParams| ==> cycleParams[j] == CycleParams(j + 1)
  {
    cycleParams := [];
    if k >= 1 {
      cycleParams := cycleParams + [Cycle(2, 7, 11)];
    }
    var i := 2;
    while i <= k
      invariant 2 <= i && (k >= 1 ==> i <= k + 1)
      invariant |cycleParams| == if k >= 1 then i - 1 else 0
      invariant forall j {:trigger cycleParams[j]} :: 0 <= j < |cycleParams| ==> cycleParams[j] == CycleParams(j + 1)
    {
      var a := 15 + 12 * (i - 2);
      cycleParams := cycleParams + [Cycle(a, a + 5, a + 9)];
      i := i + 1;
    }
  }

  /** generate_maze_string: the cycle triples, then per cycle the entry,
      phase 1, the ny catch, phase 2 and the nx catch, then phase 3; k < 1
      faults in the source (cycle_params[-1] of an empty list). */
  method GenerateMazeString(k: int) returns (mazeStr: string, nterm: int)
    requires k >= 1
    ensures mazeStr == DoublingText(k) && nterm == NtermForK(k)
  {
    var normalPorts: seq<Port> := [];
    var nxPorts: seq<Port> := [];
    var nyPorts: seq<Port> := [];

    var cycleParams := CycleTriples(k);
    for ci := 0 to |cycleParams|
      invariant normalPorts == NormalUpTo(ci) && nxPorts == NxUpTo(ci) && nyPorts == NyUpTo(ci)
    {
      CycleStep(ci, normalPorts, nxPorts, nyPorts);
      var a, b, c := cycleParams[ci].a, cycleParams[ci].b, cycleParams[ci].c;
      var entry;
      if ci == 0 {
        entry := Port(TDirW, 0, TDirN, a);
      } else {
        var prevC := cycleParams[ci - 1].c;
        entry := Port(TDirW, prevC, TDirN, a);
      }
      var phase1 := [Port(TDirN, a, TDirE, a + 1), Port(TDirW, a + 1, TDirE, a + 2),
                     Port(TDirW, a + 2, TDirN, a + 3), Port(TDirN, a + 3, TDirS, a)];
      var phase2 := [Port(TDirS, b, TDirE, b + 1), Port(TDirE, b + 1, TDirW, b + 2),
                     Port(TDirE, b + 2, TDirN, b + 3), Port(TDirS, b + 3, TDirE, b + 1)];
      assert phase1 == Phase1(a) && phase2 == Phase2(b);
      Append3(normalPorts, [entry], phase1, phase2);
      normalPorts := normalPorts + [entry] + phase1;
      nyPorts := nyPorts + [Port(TDirN, a, TDirN, b)];
      normalPorts := normalPorts + phase2;
      nxPorts := nxPorts + [Port(TDirE, b + 2, TDirE, c)];
    }

    var lastC := cycleParams[|cycleParams| - 1].c;
    Append4(normalPorts, Port(TDirW, lastC, TDirN, P3Head), Port(TDirN, P3Head, TDirS, P3Head),
            Port(TDirS, P3NyOut, TDirE, P3Bridge), Port(TDirE, P3Bridge, TDirW, 1));
    normalPorts := normalPorts + [Port(TDirW, lastC, TDirN, P3Head)];
    normalPorts := normalPorts + [Port(TDirN, P3Head, TDirS, P3Head)];
    nyPorts := nyPorts + [Port(TDirN, P3Head, TDirN, P3NyOut)];
    normalPorts := normalPorts + [Port(TDirS, P3NyOut, TDirE, P3Bridge)];
    normalPorts := normalPorts + [Port(TDirE, P3Bridge, TDirW, 1)];

    assert normalPorts == NormalGroup(k);
    assert nyPorts == NyGroup(k);
    GroupsWithinNterm(k);
    WithinValid(normalPorts, NtermForK(k));
    WithinValid(nxPorts, NtermForK(k));
    WithinValid(nyPorts, NtermForK(k));
    mazeStr := "normal: " + Join(normalPorts) + "; nx: " + Join(nxPorts) + "; ny: " + Join(nyPorts);
    nterm := NtermForK(k);
  }
}
