/** The port table store of maze.c: three flat byte arrays (normal, nx, ny)
    behind typed and flat accessors, flip, clone and bulk operations. */
module MazeStore {
  import opened MazeDefs
  import opened MazeIndex

  /** The table after maze_flip_port(idx): set to !get. */
  function Flipped(ports: seq<byte>, idx: nat): (r: seq<byte>)
    requires idx < |ports|
    ensures |r| == |ports| && r[idx] != ports[idx] && r[idx] <= 1
    ensures forall j :: 0 <= j < |ports| && j != idx ==> r[j] == ports[j]
  {
    ports[idx := Norm(if ports[idx] != 0 then 0 else 1)]
  }

  /** Flipping the same port twice restores a 0/1 port byte. */
  lemma FlipTwice(ports: seq<byte>, idx: nat)
    requires idx < |ports| && ports[idx] <= 1
    ensures Flipped(Flipped(ports, idx), idx) == ports
  {
    assert Flipped(Flipped(ports, idx), idx)[idx] == ports[idx];
  }

  /** A byte other than 0 or 1 (loadable through maze_set_from_array) comes
      back as 1 after two flips. */
  lemma FlipTwiceNonBinary(ports: seq<byte>, idx: nat)
    requires idx < |ports| && ports[idx] > 1
    ensures Flipped(Flipped(ports, idx), idx)[idx] == 1
  {
  }

  /** The low bit of a generator output, as maze_randomize stores it. */
  function LowBit(x: bv64): (b: byte)
    ensures b <= 1
  {
    (x & 1) as int
  }

  /** The table maze_randomize writes from state s: port i gets the low bit
      of the (i+1)-th generator output. */
  function RandomPorts(s: bv64, k: nat): (r: seq<byte>)
    ensures |r| == k && IsBinary(r)
    ensures forall i :: 0 <= i < k ==> r[i] == LowBit(XorshiftIter(s, i + 1))
  {
    if k == 0 then [] else RandomPorts(s, k - 1) + [LowBit(XorshiftIter(s, k))]
  }

  class Maze {
    const nterm: int
    const normalNports: int
    const nxNports: int
    const nyNports: int
    const totalNports: int
    const normalPorts: array<byte>
    const nxPorts: array<byte>
    const nyPorts: array<byte>

    /** The sizes are those of maze_create and the arrays are distinct. */
    ghost predicate Valid() {
      normalNports == NormalCount(nterm) &&
      nxNports == EdgeCount(nterm) &&
      nyNports == EdgeCount(nterm) &&
      totalNports == normalNports + nxNports + nyNports &&
      normalPorts.Length == normalNports &&
      nxPorts.Length == nxNports &&
      nyPorts.Length == nyNports &&
      normalPorts != nxPorts && normalPorts != nyPorts && nxPorts != nyPorts
    }

    /** The whole table as the flat index sees it: normal ++ nx ++ ny. */
    ghost function Ports(): seq<byte>
      reads normalPorts, nxPorts, nyPorts
    {
      normalPorts[..] + nxPorts[..] + nyPorts[..]
    }

    /** Every port byte is 0 or 1. */
    ghost predicate Binary()
      reads normalPorts, nxPorts, nyPorts
    {
      IsBinary(Ports())
    }

    /** maze_create: sizes from nterm, every port 0. */
    constructor (nterm: int)
      ensures Valid() && this.nterm == nterm
      ensures fresh(normalPorts) && fresh(nxPorts) && fresh(nyPorts)
      ensures normalNports == NormalCount(nterm) && nxNports == EdgeCount(nterm)
      ensures nyNports == EdgeCount(nterm) && totalNports == TotalCount(nterm)
      ensures Ports() == Zeros(TotalCount(nterm))
    {
      this.nterm := nterm;
      var n4 := 4 * nterm;
      normalNports := n4 * n4;
      nxNports := EdgeCount(nterm);
      nyNports := EdgeCount(nterm);
      totalNports := NormalCount(nterm) + EdgeCount(nterm) + EdgeCount(nterm);
      normalPorts := new byte[NormalCount(nterm)](_ => 0);
      nxPorts := new byte[EdgeCount(nterm)](_ => 0);
      nyPorts := new byte[EdgeCount(nterm)](_ => 0);
    }

    /** maze_clone: a fresh maze, port-for-port equal. */
    method Clone() returns (c: Maze)
      requires Valid()
      ensures c.Valid() && fresh(c) && fresh(c.normalPorts) && fresh(c.nxPorts) && fresh(c.nyPorts)
      ensures c.nterm == nterm && c.Ports() == Ports()
    {
      c := new Maze(nterm);
      forall i | 0 <= i < normalNports {
        c.normalPorts[i] := normalPorts[i];
      }
      forall i | 0 <= i < nxNports {
        c.nxPorts[i] := nxPorts[i];
      }
      forall i | 0 <= i < nyNports {
        c.nyPorts[i] := nyPorts[i];
      }
      assert c.normalPorts[..] == normalPorts[..];
      assert c.nxPorts[..] == nxPorts[..];
      assert c.nyPorts[..] == nyPorts[..];
    }

    /** maze_normal_port: the typed getter reads the flat index normal_idx. */
    function NormalPort(sd: int, si: int, dd: int, di: int): (v: byte)
      requires Valid() && NormalInRange(nterm, Port(sd, si, dd, di))
      reads normalPorts, nxPorts, nyPorts
      ensures 0 <= NormalIdx(nterm, Port(sd, si, dd, di)) < totalNports
      ensures v == Ports()[NormalIdx(nterm, Port(sd, si, dd, di))]
    {
      NormalIdxRange(nterm, Port(sd, si, dd, di));
      normalPorts[NormalIdx(nterm, Port(sd, si, dd, di))]
    }

    /** maze_nx_port: flat index normal_nports + edge_idx. */
    function NxPort(si: int, di: int): (v: byte)
      requires Valid() && EdgeInRange(nterm, si, di)
      reads normalPorts, nxPorts, nyPorts
      ensures 0 <= normalNports + EdgeIdx(nterm, si, di) < totalNports
      ensures v == Ports()[normalNports + EdgeIdx(nterm, si, di)]
    {
      EdgeIdxRange(nterm, si, di);
      nxPorts[EdgeIdx(nterm, si, di)]
    }

    /** maze_ny_port: flat index normal_nports + nx_nports + edge_idx. */
    function NyPort(si: int, di: int): (v: byte)
      requires Valid() && EdgeInRange(nterm, si, di)
      reads normalPorts, nxPorts, nyPorts
      ensures 0 <= normalNports + nxNports + EdgeIdx(nterm, si, di) < totalNports
      ensures v == Ports()[normalNports + nxNports + EdgeIdx(nterm, si, di)]
    {
      EdgeIdxRange(nterm, si, di);
      nyPorts[EdgeIdx(nterm, si, di)]
    }

    /** maze_set_normal_port: stores val normalised to 0/1 and changes
        nothing else. */
    method SetNormalPort(sd: int, si: int, dd: int, di: int, val: int)
      requires Valid() && NormalInRange(nterm, Port(sd, si, dd, di))
      modifies normalPorts
      ensures 0 <= NormalIdx(nterm, Port(sd, si, dd, di)) < totalNports
      ensures Ports() == old(Ports())[NormalIdx(nterm, Port(sd, si, dd, di)) := Norm(val)]
      ensures NormalPort(sd, si, dd, di) == Norm(val)
    {
      NormalIdxRange(nterm, Port(sd, si, dd, di));
      normalPorts[NormalIdx(nterm, Port(sd, si, dd, di))] := if val != 0 then 1 else 0;
    }

    /** maze_set_nx_port. */
    method SetNxPort(si: int, di: int, val: int)
      requires Valid() && EdgeInRange(nterm, si, di)
      modifies nxPorts
      ensures 0 <= normalNports + EdgeIdx(nterm, si, di) < totalNports
      ensures Ports() == old(Ports())[normalNports + EdgeIdx(nterm, si, di) := Norm(val)]
      ensures NxPort(si, di) == Norm(val)
    {
      EdgeIdxRange(nterm, si, di);
      nxPorts[EdgeIdx(nterm, si, di)] := if val != 0 then 1 else 0;
    }

    /** maze_set_ny_port. */
    method SetNyPort(si: int, di: int, val: int)
      requires Valid() && EdgeInRange(nterm, si, di)
      modifies nyPorts
      ensures 0 <= normalNports + nxNports + EdgeIdx(nterm, si, di) < totalNports
      ensures Ports() == old(Ports())[normalNports + nxNports + EdgeIdx(nterm, si, di) := Norm(val)]
      ensures NyPort(si, di) == Norm(val)
    {
      EdgeIdxRange(nterm, si, di);
      nyPorts[EdgeIdx(nterm, si, di)] := if val != 0 then 1 else 0;
    }

    /** maze_get_port: the flat index addresses normal ++ nx ++ ny. */
    function GetPort(idx: int): (v: byte)
      requires Valid() && 0 <= idx < totalNports
      reads normalPorts, nxPorts, nyPorts
      ensures v == Ports()[idx]
    {
      if idx < normalNports then normalPorts[idx]
      else
        var i := idx - normalNports;
        if i < nxNports then nxPorts[i] else nyPorts[i - nxNports]
    }

    /** maze_set_port. */
    method SetPort(idx: int, val: int)
      requires Valid() && 0 <= idx < totalNports
      modifies normalPorts, nxPorts, nyPorts
      ensures Ports() == old(Ports())[idx := Norm(val)]
    {
      var v := if val != 0 then 1 else 0;
      if idx < normalNports {
        normalPorts[idx] := v;
        return;
      }
      var i := idx - normalNports;
      if i < nxNports {
        nxPorts[i] := v;
        return;
      }
      i := i - nxNports;
      nyPorts[i] := v;
    }

    /** maze_flip_port: set(idx, !get(idx)). */
    method FlipPort(idx: int)
      requires Valid() && 0 <= idx < totalNports
      modifies normalPorts, nxPorts, nyPorts
      ensures Ports() == Flipped(old(Ports()), idx)
    {
      var v := GetPort(idx);
      SetPort(idx, if v != 0 then 0 else 1);
    }

    /** maze_set_from_array: copies total_nports raw bytes, normal part
        first, then nx, then ny. */
    method SetFromArray(data: array<byte>)
      requires Valid() && data.Length >= totalNports
      requires data != normalPorts && data != nxPorts && data != nyPorts
      modifies normalPorts, nxPorts, nyPorts
      ensures Ports() == data[..totalNports]
    {
      forall i | 0 <= i < normalNports {
        normalPorts[i] := data[i];
      }
      forall i | 0 <= i < nxNports {
        nxPorts[i] := data[normalNports + i];
      }
      forall i | 0 <= i < nyNports {
        nyPorts[i] := data[normalNports + nxNports + i];
      }
      assert Ports() == data[..totalNports] by {
        assert normalPorts[..] == data[..normalNports];
        assert nxPorts[..] == data[normalNports..normalNports + nxNports];
        assert nyPorts[..] == data[normalNports + nxNports..totalNports];
      }
    }

    /** maze_randomize: port i gets the low bit of the next generator output. */
    method Randomize(rng: Rng)
      requires Valid()
      modifies normalPorts, nxPorts, nyPorts, rng
      ensures Ports() == RandomPorts(old(rng.state), totalNports)
      ensures rng.state == XorshiftIter(old(rng.state), totalNports)
      ensures Binary()
    {
      ghost var s0 := rng.state;
      for i := 0 to totalNports
        invariant rng.state == XorshiftIter(s0, i)
        invariant |Ports()| == totalNports
        invariant Ports()[..i] == RandomPorts(s0, i)
      {
        var x := rng.Next();
        SetPort(i, (x & 1) as int);
      }
      assert Ports() == Ports()[..totalNports];
    }
  }
}
