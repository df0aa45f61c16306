/** The layout that generate_maze_string writes is meant to be read by
    maze_parse with nterm_for_k(k) terminals. This module connects the two:
    the text parses, and the table it yields has exactly the emitted ports
    set. */
module GeneratedMaze {
  import opened Wrappers
  import opened MazeDefs
  import opened MazeIndex
  import opened MazeText
  import opened MazeTextLemmas
  import opened MinskyDoubling

  /** The generator's "normal: " + join(...) + "; nx: " ... is the printed
      layout of the three groups with nothing after the ny group. */
  lemma DoublingTextLayout(k: int)
    requires k >= 1
    ensures ValidTokens(NormalGroup(k)) && ValidTokens(NxGroup(k)) && ValidTokens(NyGroup(k))
    ensures DoublingText(k) ==
            MazeLine(GroupText(NormalGroup(k)), GroupText(NxGroup(k)), GroupText(NyGroup(k)), "")
  {
    GroupsWithinNterm(k);
    WithinValid(NormalGroup(k), NtermForK(k));
    WithinValid(NxGroup(k), NtermForK(k));
    WithinValid(NyGroup(k), NtermForK(k));
    Layout(Join(NormalGroup(k)), Join(NxGroup(k)), Join(NyGroup(k)));
  }

  lemma Layout(x: string, y: string, z: string)
    ensures "normal: " + x + "; nx: " + y + "; ny: " + z ==
            MazeLine(" " + x, " " + y, " " + z, "")
  {
    assert "normal: " == "normal:" + " ";
    assert "; nx: " == "; nx:" + " ";
    assert "; ny: " == "; ny:" + " ";
  }

  /** The block has a 1 exactly at the flat indices of the ports ts. */
  predicate NormalBlockOf(n: int, block: seq<byte>, ts: seq<Port>) {
    forall j :: 0 <= j < |block| ==>
      (block[j] == 1 <==> exists i :: 0 <= i < |ts| && NormalIdx(n, ts[i]) == j)
  }

  /** The block has a 1 exactly at the edge indices of the ports ts. */
  predicate EdgeBlockOf(n: int, block: seq<byte>, ts: seq<Port>) {
    forall j :: 0 <= j < |block| ==>
      (block[j] == 1 <==> exists i :: 0 <= i < |ts| && EdgeIdx(n, ts[i].si, ts[i].di) == j)
  }

  /** A group of ports that all fit a normal block sets exactly their own
      flat indices. */
  lemma NormalBitsExact(n: int, ts: seq<Port>)
    requires forall i :: 0 <= i < |ts| ==> NormalInRange(n, ts[i])
    ensures NormalBlockOf(n, NormalBits(n, ts), ts)
  {
  }

  /** An nx or ny group whose ports all fit (distinct indices below n) sets
      exactly their own edge indices. */
  lemma EdgeBitsExact(n: int, ts: seq<Port>)
    requires forall i :: 0 <= i < |ts| ==> EdgeInRange(n, ts[i].si, ts[i].di)
    ensures EdgeBlockOf(n, EdgeBits(n, ts), ts)
  {
  }

  /** nx and ny ports of the generator never join an index to itself:
      E_{b+2} -> E_c is a+7 -> a+9, N_a -> N_b is a -> a+5 and the phase 3
      ny port is 12 -> 13. */
  lemma {:induction false} EdgesOffDiagonal(j: nat)
    ensures forall i :: 0 <= i < |NxUpTo(j)| ==> NxUpTo(j)[i].si != NxUpTo(j)[i].di
    ensures forall i :: 0 <= i < |NyUpTo(j)| ==> NyUpTo(j)[i].si != NyUpTo(j)[i].di
  {
    if j > 0 {
      EdgesOffDiagonal(j - 1);
      assert forall i :: 0 <= i < j - 1 ==> NxUpTo(j)[i] == NxUpTo(j - 1)[i];
      assert forall i :: 0 <= i < j - 1 ==> NyUpTo(j)[i] == NyUpTo(j - 1)[i];
    }
  }

  /** Every generated port fits the table of nterm_for_k(k) terminals. */
  lemma GroupsFit(k: int)
    requires k >= 1
    ensures forall i :: 0 <= i < |NormalGroup(k)| ==> NormalInRange(NtermForK(k), NormalGroup(k)[i])
    ensures forall i :: 0 <= i < |NxGroup(k)| ==> EdgeInRange(NtermForK(k), NxGroup(k)[i].si, NxGroup(k)[i].di)
    ensures forall i :: 0 <= i < |NyGroup(k)| ==> EdgeInRange(NtermForK(k), NyGroup(k)[i].si, NyGroup(k)[i].di)
  {
    GroupsWithinNterm(k);
    EdgesOffDiagonal(k);
    var ny := NyGroup(k);
    assert forall i :: 0 <= i < k ==> ny[i] == NyUpTo(k)[i];
  }

  /** The generated text parses to the table holding its three groups. */
  lemma GeneratedText(k: int)
    requires k >= 1
    ensures ParseText(NtermForK(k), DoublingText(k)) ==
            Some(PortsOf(NtermForK(k), NormalGroup(k), NxGroup(k), NyGroup(k)))
  {
    DoublingTextLayout(k);
    assert AtSectionEnd("");
    ParseGroups(NtermForK(k), NormalGroup(k), NxGroup(k), NyGroup(k), "");
  }

  lemma Slices3<T>(a: seq<T>, b: seq<T>, c: seq<T>)
    ensures (a + b + c)[..|a|] == a
    ensures (a + b + c)[|a|..|a| + |b|] == b
    ensures (a + b + c)[|a| + |b|..] == c
  {
  }

  /** The table of three groups that fit it has exactly their ports set,
      each block on its own. */
  lemma PortsOfExact(n: int, normal: seq<Port>, nx: seq<Port>, ny: seq<Port>)
    requires forall i :: 0 <= i < |normal| ==> NormalInRange(n, normal[i])
    requires forall i :: 0 <= i < |nx| ==> EdgeInRange(n, nx[i].si, nx[i].di)
    requires forall i :: 0 <= i < |ny| ==> EdgeInRange(n, ny[i].si, ny[i].di)
    ensures var P := PortsOf(n, normal, nx, ny);
            IsBinary(P) &&
            NormalBlockOf(n, P[..NormalCount(n)], normal) &&
            EdgeBlockOf(n, P[NormalCount(n)..NormalCount(n) + EdgeCount(n)], nx) &&
            EdgeBlockOf(n, P[NormalCount(n) + EdgeCount(n)..], ny)
  {
    var A, B, C := NormalBits(n, normal), EdgeBits(n, nx), EdgeBits(n, ny);
    NormalBitsExact(n, normal);
    EdgeBitsExact(n, nx);
    EdgeBitsExact(n, ny);
    Slices3(A, B, C);
  }

  /** maze_parse(generate_maze_string(k), nterm_for_k(k)) succeeds, and in
      the table it builds a port is set exactly when the generator emitted
      it: the normal block holds the normal group, the nx block the nx
      group and the ny block the ny group. */
  lemma GeneratedMazeParses(k: int)
    requires k >= 1
    ensures ParseText(NtermForK(k), DoublingText(k)).Some?
    ensures var n := NtermForK(k);
            var P := ParseText(n, DoublingText(k)).value;
            |P| == TotalCount(n) && IsBinary(P) &&
            NormalBlockOf(n, P[..NormalCount(n)], NormalGroup(k)) &&
            EdgeBlockOf(n, P[NormalCount(n)..NormalCount(n) + EdgeCount(n)], NxGroup(k)) &&
            EdgeBlockOf(n, P[NormalCount(n) + EdgeCount(n)..], NyGroup(k))
  {
    GeneratedText(k);
    GroupsFit(k);
    PortsOfExact(NtermForK(k), NormalGroup(k), NxGroup(k), NyGroup(k));
  }
}
