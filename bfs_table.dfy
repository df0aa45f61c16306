/** The visited set of solver.c's breadth-first search: the growing vis
    array of (state, parent) entries and the open-addressing table ht of
    vis indices, probed linearly from each state's home slot and rebuilt at
    twice the size when more than half full. */
module BfsTable {
  import opened DivMod
  import opened SolverDefs

  /** VisEntry: a visited state and the vis index it was reached from (-1
      for the start). */
  datatype VisEntry = VisEntry(state: State, parent: int)

  /** The slot a hash value starts probing at. solver.c masks the 64-bit
      hash with size - 1; for the power-of-two sizes the table keeps, that
      mask keeps the low bits, which is the remainder modulo size used
      here. The equivalence itself is not proved. */
  function HomeOf(hv: bv64, size: int): (h: int)
    requires size > 0
    ensures 0 <= h < size
  {
    (hv as int) % size
  }

  /** hs records the hash of each vis entry's state. */
  ghost predicate HashesOk(vis: seq<VisEntry>, hs: seq<bv64>, hash: State -> bv64) {
    |hs| == |vis| &&
    forall i :: 0 <= i < |vis| ==> hs[i] == hash(vis[i].state)
  }

  /** The probe step `(h + 1) & (size - 1)` for a slot h < size. */
  function NextSlot(h: int, size: int): int {
    if h + 1 == size then 0 else h + 1
  }

  /** The t-th slot probed from home: probing walks the slots cyclically. */
  function Probe(home: int, t: nat, size: int): (h: int)
    requires 0 <= home < size
    ensures 0 <= h < size
  {
    (home + t) % size
  }

  /** One probe step moves to the next probe slot. */
  lemma ProbeNext(home: int, t: nat, size: int)
    requires 0 <= home < size
    ensures NextSlot(Probe(home, t, size), size) == Probe(home, t + 1, size)
  {
    var p := Probe(home, t, size);
    var q := (home + t) / size;
    assert home + t == q * size + p;
    if p + 1 == size {
      assert home + t + 1 == (q + 1) * size + 0;
      MixDecode(q + 1, 0, size);
    } else {
      assert home + t + 1 == q * size + (p + 1);
      MixDecode(q, p + 1, size);
    }
  }

  /** The first probe is the home slot. */
  lemma ProbeZero(home: int, size: int)
    requires 0 <= home < size
    ensures Probe(home, 0, size) == home
  {
    MixDecode(0, home, size);
  }

  /** Every slot is probed within the first size probes. */
  lemma ProbeCovers(home: int, size: int, j: int)
    requires 0 <= home < size && 0 <= j < size
    ensures 0 <= (j - home) % size < size
    ensures Probe(home, (j - home) % size, size) == j
  {
    var d := (j - home) % size;
    var q := (j - home) / size;
    assert home + d == (-q) * size + j;
    MixDecode(-q, j, size);
  }

  /** The slot numbers 0 .. size-1. */
  function Slots(size: nat): (r: set<int>)
    ensures |r| == size
    ensures forall j :: j in r <==> 0 <= j < size
  {
    if size == 0 then {} else
    var p := Slots(size - 1);
    assert size - 1 !in p;
    p + {size - 1}
  }

  /** A subset is no larger than its superset. */
  lemma SubsetCard<T>(a: set<T>, b: set<T>)
    requires a <= b
    ensures |a| <= |b|
  {
    assert b == a + (b - a);
    assert a * (b - a) == {};
  }

  /** Slot j holds an entry that a probe from the entry's home reaches after
      d non-empty slots. */
  ghost predicate Placed(ht: seq<int>, hs: seq<bv64>, j: int, d: int)
    requires 0 <= j < |ht|
  {
    0 <= ht[j] < |hs| && 0 <= d &&
    var home := HomeOf(hs[ht[j]], |ht|);
    Probe(home, d, |ht|) == j &&
    forall t :: 0 <= t < d ==> ht[Probe(home, t, |ht|)] != -1
  }

  /** Slot j of ht holds a vis index. */
  predicate Occupied(ht: seq<int>, j: int) {
    0 <= j < |ht| && ht[j] != -1
  }

  /** The table invariant of linear probing: every slot is empty (-1) or
      holds a vis index; dist records, for each occupied slot, how far its
      entry is from home, with no empty slot in between; slot[i] is a slot
      holding entry i, for the entries placed so far. */
  ghost predicate TableOk(ht: seq<int>, hs: seq<bv64>, dist: map<int, int>, slot: seq<int>) {
    |ht| > 0 &&
    (forall j {:trigger Occupied(ht, j)} :: Occupied(ht, j) ==> j in dist && Placed(ht, hs, j, dist[j])) &&
    (forall j :: j in dist ==> Occupied(ht, j)) &&
    |slot| <= |hs| &&
    (forall i :: 0 <= i < |slot| ==> 0 <= slot[i] < |ht| && ht[slot[i]] == i)
  }

  /** Each occupied slot is the one slot of its entry. */
  ghost predicate ExactOk(ht: seq<int>, slot: seq<int>) {
    forall j {:trigger Occupied(ht, j)} :: Occupied(ht, j) ==> 0 <= ht[j] < |slot| && slot[ht[j]] == j
  }

  lemma TableEmpty(size: nat, hs: seq<bv64>)
    requires size > 0
    ensures TableOk(seq(size, _ => -1), hs, map[], []) && ExactOk(seq(size, _ => -1), [])
  {
  }

  /** Recording the hash of a new vis entry keeps the table valid. */
  lemma TableAppend(ht: seq<int>, hs: seq<bv64>, dist: map<int, int>, slot: seq<int>, hv: bv64)
    requires TableOk(ht, hs, dist, slot)
    ensures TableOk(ht, hs + [hv], dist, slot)
  {
    var hs' := hs + [hv];
    forall j | Occupied(ht, j)
      ensures Placed(ht, hs', j, dist[j])
    {
      assert hs'[ht[j]] == hs[ht[j]];
    }
  }

  /** Storing entry i in the empty slot h that its probe sequence reaches
      after d occupied slots keeps the table valid; when i is the next
      entry to place, slot h becomes its slot. */
  lemma TablePlace(ht: seq<int>, hs: seq<bv64>, dist: map<int, int>, slot: seq<int>, i: int, h: int, d: int)
    requires TableOk(ht, hs, dist, slot) && 0 <= i < |hs| && 0 <= h < |ht| && ht[h] == -1
    requires 0 <= d && Probe(HomeOf(hs[i], |ht|), d, |ht|) == h
    requires forall t :: 0 <= t < d ==> ht[Probe(HomeOf(hs[i], |ht|), t, |ht|)] != -1
    ensures h !in dist && dist[h := d].Keys == dist.Keys + {h}
    ensures TableOk(ht[h := i], hs, dist[h := d], slot)
  {
    var ht' := ht[h := i];
    var dist' := dist[h := d];
    forall j | Occupied(ht', j)
      ensures j in dist' && Placed(ht', hs, j, dist'[j])
    {
      if j != h {
        assert Occupied(ht, j);
        var home := HomeOf(hs[ht[j]], |ht|);
        forall t | 0 <= t < dist[j]
          ensures ht'[Probe(home, t, |ht|)] != -1
        {
        }
      }
    }
  }

  /** A slot holding the next entry to place becomes that entry's slot. */
  lemma SlotGrow(ht: seq<int>, hs: seq<bv64>, dist: map<int, int>, slot: seq<int>, h: int)
    requires TableOk(ht, hs, dist, slot) && 0 <= h < |ht| && ht[h] == |slot|
    ensures TableOk(ht, hs, dist, slot + [h])
  {
    assert Occupied(ht, h);
  }

  /** Storing the next entry in an empty slot keeps every entry in exactly
      one slot. */
  lemma ExactGrow(ht: seq<int>, slot: seq<int>, h: int)
    requires 0 <= h < |ht| && ht[h] == -1
    ensures ExactOk(ht, slot) ==> ExactOk(ht[h := |slot|], slot + [h])
  {
    var ht', slot' := ht[h := |slot|], slot + [h];
    if ExactOk(ht, slot) {
      forall j | Occupied(ht', j)
        ensures 0 <= ht'[j] < |slot'| && slot'[ht'[j]] == j
      {
        if j != h {
          assert Occupied(ht, j);
        }
      }
    }
  }

  /** A probe from home that met only other states before an empty slot
      proves that no entry with that home holds s. */
  lemma Absent(ht: seq<int>, hs: seq<bv64>, dist: map<int, int>, slot: seq<int>, vis: seq<VisEntry>,
               s: State, home: int, t: nat)
    requires TableOk(ht, hs, dist, slot) && |slot| == |hs| == |vis| && 0 <= home < |ht|
    requires ht[Probe(home, t, |ht|)] == -1
    requires forall u :: 0 <= u < t ==> var j := Probe(home, u, |ht|);
               Occupied(ht, j) && vis[ht[j]].state != s
    ensures forall i :: 0 <= i < |vis| && HomeOf(hs[i], |ht|) == home ==> vis[i].state != s
  {
    forall i | 0 <= i < |vis| && HomeOf(hs[i], |ht|) == home
      ensures vis[i].state != s
    {
      var j := slot[i];
      assert Occupied(ht, j);
      var d := dist[j];
      assert Placed(ht, hs, j, d);
      if d < t {
        assert ht[Probe(home, d, |ht|)] == i;
      } else if d == t {
        assert false;
      } else {
        assert false;
      }
    }
  }

  /** A probe that has met size occupied slots in a row has seen every slot,
      so at least size slots are occupied. */
  lemma FullProbe(ht: seq<int>, occ: set<int>, home: int, t: nat)
    requires 0 <= home < |ht|
    requires forall j :: Occupied(ht, j) ==> j in occ
    requires forall u :: 0 <= u <= t ==> ht[Probe(home, u, |ht|)] != -1
    ensures t + 1 >= |ht| ==> |ht| <= |occ|
  {
    if t + 1 >= |ht| {
      forall j | 0 <= j < |ht|
        ensures j in occ
      {
        ProbeCovers(home, |ht|, j);
        assert Occupied(ht, j);
      }
      SubsetCard(Slots(|ht|), occ);
    }
  }

  /** Linear probing from home up to the first empty slot (the loops of
      bfs_rebuild_ht and bfs_insert). */
  method FindEmpty(a: array<int>, home: int, ghost hs: seq<bv64>, ghost dist: map<int, int>, ghost slot: seq<int>)
    returns (h: int, ghost d: int)
    requires TableOk(a[..], hs, dist, slot) && 0 <= home < a.Length && |dist.Keys| < a.Length
    ensures 0 <= h < a.Length && a[h] == -1 && 0 <= d && Probe(home, d, a.Length) == h
    ensures forall t :: 0 <= t < d ==> a[Probe(home, t, a.Length)] != -1
  {
    h := home;
    d := 0;
    ProbeZero(home, a.Length);
    while a[h] != -1
      invariant 0 <= d < a.Length && h == Probe(home, d, a.Length)
      invariant forall t :: 0 <= t < d ==> a[Probe(home, t, a.Length)] != -1
      decreases a.Length - d
    {
      FullProbe(a[..], dist.Keys, home, d);
      ProbeNext(home, d, a.Length);
      h := NextSlot(h, a.Length);
      d := d + 1;
    }
  }

  /** The loop of bfs_rebuild_ht: a fresh table of the given size holding
      every vis entry once. */
  method Fill(vis: seq<VisEntry>, ghost hs: seq<bv64>, hash: State -> bv64, size: int)
    returns (a: array<int>, ghost dist: map<int, int>, ghost slot: seq<int>)
    requires HashesOk(vis, hs, hash) && |vis| < size
    ensures fresh(a) && a.Length == size
    ensures TableOk(a[..], hs, dist, slot) && ExactOk(a[..], slot)
    ensures |slot| == |vis| && |dist.Keys| == |vis|
  {
    a := new int[size](_ => -1);
    dist := map[];
    slot := [];
    TableEmpty(size, hs);
    assert a[..] == seq(size, _ => -1);
    for i := 0 to |vis|
      invariant TableOk(a[..], hs, dist, slot) && ExactOk(a[..], slot)
      invariant |slot| == i && |dist.Keys| == i
    {
      var home := HomeOf(hash(vis[i].state), size);
      var h: int;
      ghost var d: int;
      h, d := FindEmpty(a, home, hs, dist, slot);
      TablePlace(a[..], hs, dist, slot, i, h, d);
      ExactGrow(a[..], slot, h);
      ghost var before := a[..];
      a[h] := i;
      assert a[..] == before[h := i];
      dist := dist[h := d];
      SlotGrow(a[..], hs, dist, slot, h);
      slot := slot + [h];
    }
  }

  /** index maps each vis entry's state to its position, and nothing else. */
  ghost predicate IndexOk(vis: seq<VisEntry>, index: map<State, int>) {
    |index.Keys| == |vis| &&
    (forall i :: 0 <= i < |vis| ==> vis[i].state in index && index[vis[i].state] == i) &&
    (forall s :: s in index ==> 0 <= index[s] < |vis| && vis[index[s]].state == s)
  }

  /** Appending a new state to vis extends index and hs accordingly. */
  lemma IndexAppend(vis: seq<VisEntry>, index: map<State, int>, hs: seq<bv64>, hash: State -> bv64, e: VisEntry)
    requires IndexOk(vis, index) && HashesOk(vis, hs, hash) && e.state !in index
    ensures IndexOk(vis + [e], index[e.state := |vis|])
    ensures HashesOk(vis + [e], hs + [hash(e.state)], hash)
  {
    var vis', index', hs' := vis + [e], index[e.state := |vis|], hs + [hash(e.state)];
    assert index'.Keys == index.Keys + {e.state};
    forall i | 0 <= i < |vis'|
      ensures vis'[i].state in index' && index'[vis'[i].state] == i
      ensures hs'[i] == hash(vis'[i].state)
    {
      if i < |vis| {
        assert vis'[i] == vis[i] && hs'[i] == hs[i];
        assert vis[i].state != e.state;
      }
    }
    forall s | s in index'
      ensures 0 <= index'[s] < |vis'| && vis'[index'[s]].state == s
    {
      if s != e.state {
        assert vis'[index[s]] == vis[index[s]];
      }
    }
  }

  class Bfs {
    /** The hash the table probes by; bfs_init's table uses state_hash. */
    const hash: State -> bv64
    var vis: seq<VisEntry>
    var visCap: int
    var ht: array<int>
    var htSize: int
    ghost var logSize: nat
    /** The hash of each vis entry's state. */
    ghost var hs: seq<bv64>
    ghost var dist: map<int, int>
    ghost var slot: seq<int>
    /** The abstract content: each visited state with its vis index. */
    ghost var index: map<State, int>

    /** ht_size is a power of two at least twice vis_count, the table is a
        valid probing table over vis, and index names the vis entries. */
    ghost predicate Valid()
      reads this, ht
    {
      ht.Length == htSize && htSize == Pow2(logSize) && htSize >= 8 &&
      2 * |vis| <= htSize && |vis| <= visCap && visCap > 0 && HashesOk(vis, hs, hash) &&
      TableOk(ht[..], hs, dist, slot) && |slot| == |vis| && |dist.Keys| <= |vis| + 1 &&
      IndexOk(vis, index)
    }

    /** Every vis index sits in exactly one ht slot. */
    ghost predicate Exact()
      reads this, ht
    {
      ExactOk(ht[..], slot)
    }

    /** bfs_init: capacity 4096, an empty table of 8192 slots. */
    constructor ()
      ensures Valid() && Exact() && fresh(ht)
      ensures vis == [] && index == map[] && visCap == 4096 && htSize == 8192
    {
      hash := StateHash;
      vis := [];
      visCap := 4096;
      htSize := 8192;
      ht := new int[8192](_ => -1);
      logSize := 13;
      hs := [];
      dist := map[];
      slot := [];
      index := map[];
      new;
      assert Pow2(13) == 8192;
      TableEmpty(8192, []);
      assert ht[..] == seq(8192, _ => -1);
    }

    /** bfs_find: the vis index holding s, or -1 when s was never inserted. */
    method Find(s: State) returns (r: int)
      requires Valid()
      ensures r == -1 <==> s !in index
      ensures r != -1 ==> r == index[s] && vis[r].state == s
    {
      var h := HomeOf(hash(s), htSize);
      ghost var home := h;
      ghost var t := 0;
      ProbeZero(home, htSize);
      while ht[h] != -1
        invariant 0 <= t < htSize && h == Probe(home, t, htSize)
        invariant forall u :: 0 <= u < t ==> var j := Probe(home, u, htSize);
                    Occupied(ht[..], j) && vis[ht[j]].state != s
        decreases htSize - t
      {
        assert Occupied(ht[..], h);
        if StateEq(vis[ht[h]].state, s) {
          return ht[h];
        }
        FullProbe(ht[..], dist.Keys, home, t);
        ProbeNext(home, t, htSize);
        h := NextSlot(h, htSize);
        t := t + 1;
      }
      Absent(ht[..], hs, dist, slot, vis, s, home, t);
      return -1;
    }

    /** bfs_rebuild_ht: a table of twice the size into which every vis entry
        is placed once more. */
    method RebuildHt()
      requires HashesOk(vis, hs, hash) && |vis| < 2 * htSize && htSize == Pow2(logSize)
      modifies this
      ensures fresh(ht) && htSize == 2 * old(htSize) && logSize == old(logSize) + 1
      ensures htSize == Pow2(logSize)
      ensures vis == old(vis) && hs == old(hs) && visCap == old(visCap) && index == old(index)
      ensures ht.Length == htSize && TableOk(ht[..], hs, dist, slot) && Exact()
      ensures |slot| == |vis| && |dist.Keys| == |vis|
    {
      var newSize := htSize * 2;
      var a: array<int>;
      ghost var nd: map<int, int>;
      ghost var ns: seq<int>;
      a, nd, ns := Fill(vis, hs, hash, newSize);
      ht := a;
      htSize := newSize;
      logSize := logSize + 1;
      dist := nd;
      slot := ns;
    }

    /** The first half of bfs_insert: the capacity doubles when full and
        entry (s, parent) is appended. */
    method Append(s: State, parent: int) returns (idx: int)
      requires IndexOk(vis, index) && HashesOk(vis, hs, hash) && TableOk(ht[..], hs, dist, slot)
      requires |vis| <= visCap && visCap > 0 && s !in index
      modifies this`vis, this`visCap, this`hs, this`index
      ensures idx == |old(vis)| && vis == old(vis) + [VisEntry(s, parent)]
      ensures index == old(index)[s := idx] && |index.Keys| == |vis| && |vis| <= visCap
      ensures hs == old(hs) + [hash(s)]
      ensures HashesOk(vis, hs, hash) && IndexOk(vis, index) && TableOk(ht[..], hs, dist, slot)
    {
      if |vis| >= visCap {
        visCap := visCap * 2;
      }
      idx := |vis|;
      TableAppend(ht[..], hs, dist, slot, hash(s));
      IndexAppend(vis, index, hs, hash, VisEntry(s, parent));
      vis := vis + [VisEntry(s, parent)];
      hs := hs + [hash(s)];
      index := index[s := idx];
    }

    /** The state between the two halves of bfs_insert: the last vis entry
        is appended and is still to be placed; when grow is false a rebuild
        has already placed it. */
    ghost predicate Pending(grow: bool)
      reads this, ht
    {
      ht.Length == htSize && htSize == Pow2(logSize) && htSize >= 8 &&
      2 * |vis| <= htSize && |vis| <= visCap && visCap > 0 && |vis| > 0 && HashesOk(vis, hs, hash) &&
      TableOk(ht[..], hs, dist, slot) && IndexOk(vis, index) &&
      |slot| == (if grow then |vis| - 1 else |vis|) && |dist.Keys| <= |vis|
    }

    /** The second half of bfs_insert: the last vis entry, whose state is s,
        is stored in the first empty slot of its probe sequence. */
    method Place(s: State, ghost grow: bool) returns (h: int)
      requires Pending(grow) && vis[|vis| - 1].state == s
      modifies ht, this`dist, this`slot
      ensures Valid() && 0 <= h < htSize && old(ht[h]) == -1
      ensures ht[..] == old(ht[..])[h := |vis| - 1]
      ensures slot == if grow then old(slot) + [h] else old(slot)
    {
      var idx := |vis| - 1;
      ghost var d: int;
      h, d := FindEmpty(ht, HomeOf(hash(s), htSize), hs, dist, slot);
      TablePlace(ht[..], hs, dist, slot, idx, h, d);
      ghost var before := ht[..];
      ht[h] := idx;
      assert ht[..] == before[h := idx];
      dist := dist[h := d];
      if grow {
        SlotGrow(ht[..], hs, dist, slot, h);
        slot := slot + [h];
      }
    }

    /** bfs_insert as written: vis_count is raised before the load check, so
        a rebuild already places the new entry, which is then placed a
        second time. */
    method Insert(s: State, parent: int) returns (idx: int)
      requires Valid() && s !in index
      modifies this, ht
      ensures Valid() && (ht == old(ht) || fresh(ht))
      ensures idx == |old(vis)| && vis == old(vis) + [VisEntry(s, parent)]
      ensures index == old(index)[s := idx]
      ensures 2 * |vis| <= old(htSize) ==> htSize == old(htSize)
      ensures 2 * |vis| > old(htSize) ==> htSize == 2 * old(htSize) && !Exact()
    {
      idx := Append(s, parent);
      ghost var rebuilt := 2 * |vis| > htSize;
      if 2 * |vis| > htSize {
        RebuildHt();
      }
      ghost var first := if rebuilt then slot[idx] else -1;
      assert Pending(!rebuilt);
      var h := Place(s, !rebuilt);
      if rebuilt {
        assert ht[first] == idx && first != h && ht[h] == idx && Occupied(ht[..], h);
      }
    }

    /** The load check of bfs_insert made for one more entry: the table
        is rebuilt at twice the size when that entry would fill it beyond
        half. */
    method MakeRoom()
      requires Valid() && Exact()
      modifies this
      ensures Valid() && Exact() && (ht == old(ht) || fresh(ht)) && 2 * (|vis| + 1) <= htSize
      ensures vis == old(vis) && index == old(index) && hs == old(hs) && visCap == old(visCap)
    {
      if 2 * (|vis| + 1) > htSize {
        RebuildHt();
      }
    }

    /** bfs_insert after the load check: entry (s, parent) is appended and
        stored in the first empty slot of its probe sequence. */
    method AppendPlace(s: State, parent: int) returns (idx: int)
      requires Valid() && Exact() && s !in index && 2 * (|vis| + 1) <= htSize
      modifies this, ht
      ensures Valid() && Exact() && ht == old(ht)
      ensures idx == |old(vis)| && vis == old(vis) + [VisEntry(s, parent)]
      ensures index == old(index)[s := idx]
    {
      ghost var ht0, slot0 := ht[..], slot;
      idx := Append(s, parent);
      assert Pending(true);
      var h := Place(s, true);
      ExactGrow(ht0, slot0, h);
    }

    /** bfs_insert with the load check made before the new entry is stored,
        so that each entry is placed exactly once. */
    method InsertFixed(s: State, parent: int) returns (idx: int)
      requires Valid() && Exact() && s !in index
      modifies this, ht
      ensures Valid() && Exact() && (ht == old(ht) || fresh(ht))
      ensures idx == |old(vis)| && vis == old(vis) + [VisEntry(s, parent)]
      ensures index == old(index)[s := idx]
    {
      MakeRoom();
      idx := AppendPlace(s, parent);
    }
  }
}
