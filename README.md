# repeated-maze in Dafny

A repeated maze is an infinite grid of blocks that all share one port
table. Three kinds of block use it:

- **Normal blocks** (x > 0, y > 0) have (4·nterm)² directed ports between
  the terminals E/W/N/S × index.
- The **nx column** (x = 0) has only E→E ports.
- The **ny row** (y = 0) has only N→N ports.

A walker starts at the boundary point (0, 1, E0) and looks for the goal
(0, 1, E1).

This project models the C core of the repository and its doubling-analysis
script, and proves what each part promises:

- **Port table** (`maze.h`, `maze.c`).
  - The `Maze` record is a class with three byte arrays.
  - The index packing `normal_idx` / `edge_idx` is proved a bijection.
  - Typed and flat accessors, flip, clone, bulk load and randomisation are
    proved against the flat view `Ports()` = normal ++ nx ++ ny.
  - The xorshift64 generator is a class over a `bv64` state.
  - The text format is modelled twice. `MazeText.FormatText` /
    `MazeText.ParseText` are the specification functions. `MazePrint.Fprint`
    and `MazeIo.Parse` are the loop-by-loop methods, proved equal to them.
  - Round trip: parsing the printed table gives the table back, each byte
    read as 0/1.
- **Solver** (`solver.h`, `solver.c`).
  - States are canonicalised to shared boundary points.
  - `get_neighbors` is proved to list exactly the in-bounds states one port
    traversal away.
  - The visited set is an open-addressing table with linear probing and a
    doubling rebuild, modelled as a class.
  - `solve` is proved to return -1 exactly when no walk reaches the goal,
    and otherwise the length of a shortest walk, with that walk as the path.
- **Hill climbing** (`quizmaster.c`, `quizmaster.h`).
  - One mutable maze is flipped, scored by `solve` and reverted.
  - Random restarts follow 1000 stagnant steps.
  - The global best is kept as a clone.
- **Doubling analysis** (`analysis/minsky_doubling.py`).
  - The path-length recurrence and its closed form.
  - `nterm_for_k` and the counter-pump baseline.
  - The maze-text generator.
  - The module `GeneratedMaze` proves, across files, that `maze_parse`
    reads the generated text into a table whose set ports are exactly the
    emitted tokens.

One module per source unit: `MazeDefs`, `MazeIndex`, `MazeStore`,
`MazeText`, `MazeTextLemmas`, `MazeIo`, `MazePrint` (maze.h / maze.c);
`SolverDefs`, `SolverGraph`, `BfsTable`, `Solver` (solver.h / solver.c);
`Quizmaster`; `MinskyDoubling`, `GeneratedMaze`. `Wrappers`, `Decimal` and
`DivMod` hold an `Option` type, character classes and mixed-radix arithmetic.

## Model

| member | source | states |
|---|---|---|
| MazeDefs.Norm | maze.c:58 | The stored value is 0 or 1, and it is 1 exactly when `val` is non-zero. |
| MazeDefs.Rng.Next | maze.h:25-31 | The new state is one xorshift64 step (13, 7, 17) of the old one, and the returned value equals the new state. |
| MazeDefs.XorshiftZero | maze.h:25-31 | 0 is a fixed point of the generator. |
| MazeDefs.XorshiftNonZero | maze.h:25-31 | A non-zero state never steps to 0. |
| MazeDefs.XorshiftIterNonZero | maze.h:25-31 | A non-zero state stays non-zero for any number of steps. |
| MazeIndex.NormalIdxRange | maze.c:39-44 | An in-range (sd, si, dd, di) maps into [0, (4n)²). |
| MazeIndex.NormalIdxInjective | maze.c:39-44 | Distinct in-range ports get distinct normal indices. |
| MazeIndex.NormalOnto | maze.c:39-44 | Every index of [0, (4n)²) is the index of some in-range port. |
| MazeIndex.NormalDecodeIdx | maze.c:39-44 | Decoding the index of a port gives that port back. |
| MazeIndex.EdgeIdxRange | maze.c:46-49 | An edge si ≠ di below n maps into [0, n(n-1)). |
| MazeIndex.EdgeIdxInjective | maze.c:46-49 | Distinct off-diagonal edges get distinct edge indices. |
| MazeIndex.EdgeOnto | maze.c:46-49 | Every index of [0, n(n-1)) is the index of some off-diagonal edge. |
| MazeIndex.EdgeDecodeIdx | maze.c:46-49 | Decoding the edge index of (si, di) gives (si, di) back. |
| MazeIndex.NormalIdxRow | solver.c:129-132 | Row src·4n + dst is the port from (sd, si) to terminal (dst / n, dst % n). |
| MazeStore.Maze.constructor | maze.c:7-18 | Sizes are (4n)², n(n-1), n(n-1) and their sum. Every port is 0. |
| MazeStore.Maze.Clone | maze.c:29-35 | A fresh maze with fresh arrays and the same nterm, port-for-port equal. |
| MazeStore.Maze.NormalPort | maze.c:53-55 | Reads flat index normal_idx of the table. |
| MazeStore.Maze.NxPort | maze.c:61-63 | Reads flat index normal_nports + edge_idx. |
| MazeStore.Maze.NyPort | maze.c:69-71 | Reads flat index normal_nports + nx_nports + edge_idx. |
| MazeStore.Maze.SetNormalPort | maze.c:57-59 | Only that port changes; it becomes `val ? 1 : 0`, and the getter returns it. |
| MazeStore.Maze.SetNxPort | maze.c:65-67 | Only that nx port changes, to `val ? 1 : 0`; the getter returns it. |
| MazeStore.Maze.SetNyPort | maze.c:73-75 | Only that ny port changes, to `val ? 1 : 0`; the getter returns it. |
| MazeStore.Maze.GetPort | maze.c:79-87 | The flat index addresses normal ++ nx ++ ny. |
| MazeStore.Maze.SetPort | maze.c:89-102 | The flat table changes at idx only, to `val ? 1 : 0`. |
| MazeStore.Flipped | maze.c:104-106 | The flipped port differs from before and is 0/1; every other port is unchanged. |
| MazeStore.Maze.FlipPort | maze.c:104-106 | The new table is the old one flipped at idx. |
| MazeStore.FlipTwice | maze.c:104-106 | Flipping a 0/1 port twice restores the table. |
| MazeStore.FlipTwiceNonBinary | maze.c:104-106 | A raw byte above 1 comes back as 1 after two flips. |
| MazeStore.Maze.SetFromArray | maze.c:110-114 | The table becomes the first total_nports bytes of data: normal first, then nx, then ny. |
| MazeStore.RandomPorts | maze.c:116-119 | Port i is the low bit of the (i+1)-th generator output, so the table is 0/1. |
| MazeStore.Maze.Randomize | maze.c:116-119 | The table becomes RandomPorts of the old state, and the state advances total_nports steps. |
| Decimal.NatStrValue | maze.c:240-243 | The digit-accumulation loop reads back the value `%d` printed. |
| MazeText.DirChar | maze.c:123 | The printed direction letter parses back to its code. |
| MazeText.ParseDir | maze.c:222-230 | Returns -1 exactly for characters other than EeWwNnSs, otherwise a code below 4. |
| MazeText.SkipWs | maze.c:247-249 | The rest never starts with a blank. |
| MazeText.ScanPortsValid | maze.c:232-245 | Every pair the entry loop reads has a direction code below 4 and a non-negative index. |
| MazeText.NormalTokensUpTo | maze.c:131-141 | The printed normal tokens are valid and in range, at most one per index below k. |
| MazeText.EdgeTokensUpTo | maze.c:146-151 | The printed nx/ny tokens carry their block's direction on both ends and are off-diagonal edges in range. |
| MazeText.ParseText | maze.c:258-331 | None (NULL) exactly when the first non-blank text is not `normal:`; otherwise a table of total_nports bytes. |
| MazeTextLemmas.NormalSetUpTo | maze.c:131-141 | The printed normal group names exactly the set normal ports. |
| MazeTextLemmas.EdgeSetUpTo | maze.c:146-151 | The printed nx or ny group names exactly the set ports of that block. |
| MazeTextLemmas.IgnoredEntries | maze.c:275-277 | A normal entry out of range changes nothing, and neither does an nx/ny entry out of range or with si == di. |
| MazeTextLemmas.ParseGroups | maze.c:258-331 | Three groups in the printed layout parse to the table of exactly their in-range entries. ` (none)` counts as an empty group. |
| MazeTextLemmas.MissingSections | maze.c:284-285 | When only blanks follow the normal group, the nx and ny blocks stay empty. |
| MazeTextLemmas.TokensRoundTrip | maze.c:125-165 | Storing the printed groups gives back the table, each byte read as 0/1. |
| MazeTextLemmas.FormatParse | maze.c:258-331 | `maze_parse(n, maze_fprint(m))` is m with every byte read as 0/1. |
| MazeTextLemmas.FormatParseBinary | maze.c:258-331 | For a 0/1 table the round trip is exact. |
| MazeIo.SkipWsAt | maze.c:247-249 | The loop stops where SkipWs says. |
| MazeIo.ParseTerminalAt | maze.c:232-245 | Success, direction, index and cursor agree with ParseTerminalText, on failure too. |
| MazeIo.ReadEntry | maze.c:270-279 | One entry and its comma, as ScanEntry reads it. A failed terminal stops the loop where the cursor is. |
| MazeIo.StoreEntry | maze.c:275-277 | An entry that fits sets exactly its flat index to 1; any other entry changes nothing. |
| MazeIo.ScanEntries | maze.c:268-280 | The loop stores every entry of ScanPorts, in order, and stops where it stops. |
| MazeIo.ScanBody | maze.c:264-281 | `(none)` stores nothing; otherwise the body is the entry loop. |
| MazeIo.SectionStart | maze.c:284-285 | An optional ';' and the header: found exactly when ParseSection finds it, and the body starts after it. |
| MazeIo.Parse | maze.c:258-331 | null exactly when ParseText is None; otherwise a fresh valid maze holding ParseText's table. |
| MazePrint.PrintEntry | maze.c:135-141 | Appends `", "`-separated token text and clears `first`. |
| MazePrint.CloseGroup | maze.c:142 | The group text is ` (none)` exactly when nothing was printed. |
| MazePrint.PrintNormalGroup | maze.c:130-142 | The four nested loops print GroupText of the set normal ports, in index order. |
| MazePrint.PrintEdgeGroup | maze.c:145-152 | The nx (or ny) loops print GroupText of the set ports of that block. |
| MazePrint.Fprint | maze.c:125-165 | The line written is FormatText of the table. |
| SolverDefs.StateEq | solver.c:8-10 | Field-by-field comparison is equality of states. |
| SolverDefs.ToCanonical | solver.c:97-108 | E/N keep the block; W becomes E of (x-1, y); S becomes N of (x, y-1); another code gives (-1, -1); idx is kept. |
| SolverDefs.SharedPoints | solver.c:97-108 | E of (x, y) and W of (x+1, y) are one point; so are N of (x, y) and S of (x, y+1). |
| SolverDefs.CanonicalPreimage | solver.c:97-108 | Exactly those two (block, terminal) pairs name each canonical state. |
| SolverDefs.CanonicalDir | solver.h:10-15 | A valid terminal canonicalises to dir ∈ {E, N} and idx < nterm. |
| SolverGraph.NormalRow | solver.c:129-136 | At most k states are listed, each canonical and within max_coord. |
| SolverGraph.NormalRowExits | solver.c:129-136 | The normal-block loop lists exactly the in-bounds states the terminal has a set port to. |
| SolverGraph.EdgeRowMem | solver.c:139-144 | The nx/ny loop lists (col, row, dir, dj) exactly for dj ≠ si with the edge port set. |
| SolverGraph.NxExits | solver.c:139-144 | The nx row is exactly the E→E ports of the nx block. |
| SolverGraph.NyExits | solver.c:186-191 | The ny row is exactly the N→N ports of the ny block. |
| SolverGraph.NoExits | solver.c:126-127 | Block (0, 0), and the wrong edge block for the terminal's direction, have no port. |
| SolverGraph.NearStep | solver.c:123-147 | The first half of the list is the set ports of the state's own block (E; N at lines 170-194). |
| SolverGraph.FarStep | solver.c:149-163 | The second half is the set ports of the block across the boundary (W; S at lines 196-210). |
| SolverGraph.Neighbors | solver.c:112-214 | At most 8·nterm states, all canonical. |
| SolverGraph.NeighborsStep | solver.c:112-214 | A state is listed exactly when it is one port traversal away and in bounds. |
| SolverGraph.NeighborsBox | solver.c:133-135 | Neighbours of a state in the box [0, b]² stay in it when max_coord ≤ b. |
| SolverGraph.ScanNormal | solver.c:129-136 | Appends NormalRow to nbrs from cnt. |
| SolverGraph.ScanNx | solver.c:139-144 | Appends the nx EdgeRow to nbrs. |
| SolverGraph.ScanNy | solver.c:186-191 | Appends the ny EdgeRow to nbrs. |
| SolverGraph.ScanNear | solver.c:123-147 | Writes NearSide from index 0. |
| SolverGraph.ScanFar | solver.c:149-163 | Appends FarSide. |
| SolverGraph.GetNeighbors | solver.c:112-214 | nbrs[..cnt] is the neighbour list, and cnt ≤ 8·nterm. |
| BfsTable.HomeOf | solver.c:53 | The home slot lies in [0, size); the mask by size - 1 is written as the remainder modulo the power-of-two size. |
| BfsTable.ProbeNext | solver.c:57 | One probe step moves to the next slot of the cyclic probe sequence. |
| BfsTable.ProbeCovers | solver.c:54-58 | Every slot is reached within size probes. |
| BfsTable.TableEmpty | solver.c:42-44 | The all -1 table is a valid, exact table. |
| BfsTable.TablePlace | solver.c:88-91 | Storing an entry in the first empty slot of its probe keeps the table valid. |
| BfsTable.Absent | solver.c:52-60 | A probe that reaches an empty slot, past other states only, proves the state absent. |
| BfsTable.FullProbe | solver.c:54-58 | A probe that sees only occupied slots for size steps implies a full table. Under load ≤ ½ every probe therefore stops. |
| BfsTable.FindEmpty | solver.c:88-90 | Returns the first empty slot of the probe sequence. |
| BfsTable.Fill | solver.c:62-71 | A fresh table of the given size, holding every vis entry in exactly one slot. |
| BfsTable.IndexAppend | solver.c:82-83 | Appending a new state extends the state→index map by the new index. |
| BfsTable.Bfs.constructor | solver.c:38-45 | Capacity 4096, an empty table of 8192 slots, no entries. |
| BfsTable.Bfs.Find | solver.c:52-60 | -1 exactly when s was never inserted; otherwise the vis index that holds s. |
| BfsTable.Bfs.RebuildHt | solver.c:62-75 | A fresh table of twice the size with every entry once; the entries are unchanged. |
| BfsTable.Bfs.Append | solver.c:77-83 | (s, parent) is appended at the old vis_count; the capacity doubles when full. |
| BfsTable.Bfs.Place | solver.c:88-91 | The last entry goes into an empty slot; nothing else changes. |
| BfsTable.Bfs.Insert | solver.c:77-93 | As written: the index is appended, and membership holds. After a rebuild the new index is in two slots (not Exact). |
| BfsTable.Bfs.MakeRoom | solver.c:85-86 | After the load check one more entry keeps 2·vis_count ≤ ht_size. |
| BfsTable.Bfs.AppendPlace | solver.c:77-93 | Appends and places the entry once, keeping the table valid and exact. |
| BfsTable.Bfs.InsertFixed | solver.c:77-93 | Corrected: returns the old vis_count; every index sits in exactly one slot. |
| Solver.IotaAppend | solver.c:251-257 | The queue always holds vis indices 0..k-1 in order. |
| Solver.WalkDepth | solver.c:242-264 | Every state on a walk through expanded levels is visited, no deeper than its position. |
| Solver.NoPath | solver.c:270-273 | When everything visited is expanded and the goal is not visited, no walk reaches it. |
| Solver.Shortest | solver.c:247-262 | The goal found while expanding entry c lies at the depth of a shortest walk. |
| Solver.PathNeedsTwo | solver.c:221 | Any path ends at E1, which needs nterm ≥ 2. |
| Solver.NoPathSmall | solver.c:221 | With nterm < 2 no path exists, so -1 is right. |
| Solver.TreeAppend | solver.c:251 | A new child one level below its parent keeps the search tree. |
| Solver.ClosedAppend | solver.c:247-257 | Visiting a new state keeps the expanded prefix expanded. |
| Solver.FrontierAppend | solver.c:247-257 | Visiting a new successor keeps the BFS frontier invariant. |
| Solver.FrontierNext | solver.c:242-264 | Once all successors of entry c are visited, c counts as expanded. |
| Solver.ChainPath | solver.c:276-285 | The parent chain is a walk from the start with depth + 1 states. |
| Solver.BoxBound | solver.c:242 | Visited states are distinct states of a finite box, so the queue runs out. |
| Solver.Visit | solver.c:248-251 | A state unknown to bfs_find is inserted, through bfs_insert as written, with parent ci one level deeper; a known one changes nothing. |
| Solver.Step | solver.c:247-263 | One pass of the inner loop keeps the search invariant, or reports the goal with its invariant. |
| Solver.Expand | solver.c:246-263 | After the inner loop, entry ci is expanded, or the goal was found as its successor. |
| Solver.PathLength | solver.c:276-278 | Counts the states on the parent chain. |
| Solver.FillPath | solver.c:280-286 | The array holds the chain from start to goal, written back to front. |
| Solver.Fetch | solver.c:246 | get_neighbors on a visited state gives its successors, all inside the box. |
| Solver.Round | solver.c:243-263 | One round of the outer loop keeps the invariant, or ends at the goal. |
| Solver.InitSearch | solver.c:226-236 | bfs_init, then the start is inserted through bfs_insert as written and queued. |
| Solver.Rounds | solver.c:242-264 | The outer loop ends with every visited entry expanded and the goal never visited, or with the goal visited one level below the entry being expanded. |
| Solver.Search | solver.c:226-264 | From bfs_init and the start's insertion: ends with every visited entry expanded and no goal, or with the goal found at BFS depth. |
| Solver.Solve | solver.c:218-291 | -1 with no path output when nterm < 2 or no walk reaches the goal. Otherwise the traversal count of a shortest walk, path_len = result + 1, and the path (only when asked) is that walk. |
| Quizmaster.ScoredUnique | quizmaster.c:32-33 | A table has one score. |
| Quizmaster.SolveScore | quizmaster.c:40-41 | solve's result, with -1 read as 0, is the table's score. |
| Quizmaster.Score | quizmaster.c:40-41 | Returns the score of the current table. |
| Quizmaster.StartState | quizmaster.c:18-20 | The seed, or 42 for seed 0; never 0. |
| Quizmaster.StartStateLive | quizmaster.c:18-20 | No state the search draws is 0. |
| Quizmaster.TotalPositive | quizmaster.c:37 | For nterm ≥ 2 the modulus total_nports is positive. |
| Quizmaster.MaxOf | quizmaster.c:53-54 | The largest score seen, or 0. |
| Quizmaster.MaxOfSnoc | quizmaster.c:53-54 | A new score raises the best exactly when it is larger. |
| Quizmaster.Restart | quizmaster.c:70-75 | The table is RandomPorts of the old state, and cur is its score. |
| Quizmaster.RestartBeside | quizmaster.c:70-75 | The restart leaves the kept best maze unchanged. |
| Quizmaster.ClimbStep | quizmaster.c:36-50 | The bit lies in [0, total_nports). A strict gain keeps the flip and resets stagnation; otherwise the table is as before and stagnation grows by 1. |
| Quizmaster.KeepBest | quizmaster.c:53-61 | best_len becomes max(best_len, cur_len); on a gain best is a fresh clone of m. |
| Quizmaster.BestPath | quizmaster.c:79-87 | The final solve gives a path of best_len + 1 states from start to goal. |
| Quizmaster.Iteration | quizmaster.c:35-76 | Accept, revert or restart (exactly when stagnation reaches 1000); the compared cur_len is the score of a table, and best_len becomes the larger of the two. |
| Quizmaster.ReachedSnoc | quizmaster.c:53-55 | The score of one more table extends a trace whose entries are all scores. |
| Quizmaster.QuizmasterSearch | quizmaster.c:13-91 | nterm < 2 gives the empty result. Every trace entry is the score of some table of nterm ports; best_length is the largest of them; best_maze is non-null exactly when it is positive, and then has that score with a shortest path. |
| Quizmaster.QmresultFree | quizmaster.c:5-11 | Both pointers are cleared and the lengths kept; NULL is left alone. |
| Quizmaster.FreeTwice | quizmaster.c:5-11 | Freeing twice equals freeing once. |
| MinskyDoubling.YClosedForm | analysis/minsky_doubling.py:15-18 | y[i] = 2^(i+1) - 1. |
| MinskyDoubling.CycleCost | analysis/minsky_doubling.py:21-29 | One cycle costs 5 + 10·y. |
| MinskyDoubling.FinalCost | analysis/minsky_doubling.py:31-32 | The final phase costs 4 + y[k]. |
| MinskyDoubling.CyclesClosedForm | analysis/minsky_doubling.py:20-29 | k cycles cost 10·2^(k+1) - 5k - 20. |
| MinskyDoubling.PathClosedForm | analysis/minsky_doubling.py:9-33 | T(k) = 11·2^(k+1) - 5k - 17, so T(1) = 22. |
| MinskyDoubling.PathIncreasing | analysis/minsky_doubling.py:9-33 | T is strictly increasing in k. |
| MinskyDoubling.ComputePathLength | analysis/minsky_doubling.py:9-33 | Returns (T(k), y[k]). |
| MinskyDoubling.NtermForK | analysis/minsky_doubling.py:36-54 | 15 for k = 1 and 12k + 1 for every other k. |
| MinskyDoubling.CounterPumpLength | analysis/minsky_doubling.py:57-62 | Equals (n-1)(n-2)(2n+1) - 3, which is -3 at n = 1. |
| MinskyDoubling.CounterPumpPositive | analysis/minsky_doubling.py:57-62 | Positive from n = 3 on. |
| MinskyDoubling.CycleParams | analysis/minsky_doubling.py:83-88 | b = a + 5, c = a + 9, and a = 12i - 9 for i ≥ 2. |
| MinskyDoubling.CyclesDisjoint | analysis/minsky_doubling.py:74-88 | A later cycle starts after an earlier one's c. |
| MinskyDoubling.CycleAvoidsReserved | analysis/minsky_doubling.py:83-95 | No cycle touches indices 0, 1 or 12–14. |
| MinskyDoubling.CycleTriples | analysis/minsky_doubling.py:83-88 | The list holds k triples, the i-th being CycleParams(i). |
| MinskyDoubling.NormalGroup | analysis/minsky_doubling.py:97-131 | 9k + 4 normal tokens. |
| MinskyDoubling.NxGroup | analysis/minsky_doubling.py:97-131 | k nx tokens. |
| MinskyDoubling.NyGroup | analysis/minsky_doubling.py:97-131 | k + 1 ny tokens. |
| MinskyDoubling.EntryPorts | analysis/minsky_doubling.py:98-103 | Cycle 0 is entered from W0, cycle i from W of the previous c. |
| MinskyDoubling.LastEntry | analysis/minsky_doubling.py:124-125 | The last c leads to N12. |
| MinskyDoubling.OneCycleGroups | analysis/minsky_doubling.py:97-131 | The exact token lists for k = 1. |
| MinskyDoubling.CycleStep | analysis/minsky_doubling.py:97-121 | Each cycle appends its entry, phases and catches to the lists. |
| MinskyDoubling.GroupsWithinNterm | analysis/minsky_doubling.py:97-138 | Every emitted index is below nterm_for_k(k), and the bound is tight. |
| MinskyDoubling.GenerateMazeString | analysis/minsky_doubling.py:65-139 | Returns DoublingText(k) and nterm_for_k(k). |
| GeneratedMaze.DoublingTextLayout | analysis/minsky_doubling.py:133-137 | The generated string is the printed layout of the three groups. |
| GeneratedMaze.EdgesOffDiagonal | analysis/minsky_doubling.py:112-129 | No nx or ny token joins an index to itself. |
| GeneratedMaze.GroupsFit | analysis/minsky_doubling.py:97-138 | Every token fits the table of nterm_for_k(k). |
| GeneratedMaze.NormalBitsExact | maze.c:275-277 | Fitting normal tokens set exactly their own indices. |
| GeneratedMaze.EdgeBitsExact | maze.c:297-298 | Fitting nx/ny tokens set exactly their own edge indices. |
| GeneratedMaze.GeneratedText | analysis/minsky_doubling.py:133-138 | maze_parse yields the table of the three groups. |
| GeneratedMaze.PortsOfExact | maze.c:258-331 | That table is 0/1, and each block has exactly its group's ports set. |
| GeneratedMaze.GeneratedMazeParses | analysis/minsky_doubling.py:133-138 | The generated text parses with nterm_for_k(k) to a 0/1 table whose set ports are exactly the emitted tokens. |

## Left out

- `main.c` (argument parsing, usage and output dispatch) is not part of this model.
- Printing: `maze_print`, `maze_print_table`, `state_print`, `path_print`, `path_print_grid` and `path_print_verbose`. Also the `stderr` progress lines of `quizmaster_search` and the Python `main` report with its float ratio. Only the string `maze_fprint` writes is modelled, as a returned `string`, not as `FILE*` writes.
- Memory management: `malloc`/`calloc`/`realloc` failure, `free`, `maze_destroy` and `bfs_free`. Buffers are Dafny arrays and sequences. The BFS queue is a sequence, so the queue's capacity doubling is not modelled.
- The one-byte minimum allocation of an empty port array (`calloc(... ? ... : 1)` in maze_create) is not modelled: an empty block is an empty array.
- C `int` overflow is not modelled: integers are unbounded in the index arithmetic, in the `parse_terminal` digit accumulation and in the `vis_count`/`ht_size` growth.
- `BfsTable.Bfs`: correctness is proved for any hash function (`hash` is a field). `SolverDefs.StateHash` models state_hash's FNV rounds over `bv64`, but no property of the mixing itself is claimed.
- `Quizmaster.QuizmasterSearch`: does not claim what quizmaster.h:15-16 promises, that the search finds the maze with the longest minimal path for nterm. Hill climbing with random restarts over a bounded number of iterations does not guarantee the maximum. What is proved is that best_length is the largest score the run reached, and that best_maze has it.
- `Quizmaster.QuizmasterSearch`: states the scores through a ghost trace. Each entry is proved to be the score of some table of nterm ports, but the trace is not tied to the concrete rng sequence the iterations draw. Each iteration's dependence on the generator is stated by `Quizmaster.Iteration`.
- `MinskyDoubling.ComputePathLength`: requires k ≥ 0. For a negative k the source faults on `y[0]` of an empty list.
- `MinskyDoubling.GenerateMazeString`: requires k ≥ 1. For k < 1 the source faults at `cycle_params[-1]` of an empty list.
- `BfsTable.HomeOf`: solver.c masks the 64-bit hash with `ht_size - 1`. The model takes the remainder modulo the power-of-two size instead. The two agree for powers of two, but this equivalence is not proved: it is a fact about conversions between bit-vectors and integers that the solver does not settle.
- Text is modelled as `seq<char>` with the C-locale `isspace`/`isdigit`. The NUL terminator is the end of the sequence.

## Findings

| source | as written | input that shows it | evidently intended | confidence | as-written member | corrected member |
|---|---|---|---|---|---|---|
| solver.c:82-91 | `vis_count` is raised before the load check. A rebuild therefore already places the new index, and lines 88-91 then place it a second time. | The 4097th insert: vis_count becomes 4097, 2·4097 > 8192 triggers the rebuild, and index 4096 ends up in two slots. | Each vis index sits in exactly one ht slot. | medium, not executed | BfsTable.Bfs.Insert | BfsTable.Bfs.InsertFixed |

Lookups stay correct with the duplicate slot; it only adds load. `Solver.Solve` inserts through `BfsTable.Bfs.Insert` as written, and its contract (-1 exactly when no walk reaches the goal, otherwise a shortest walk) holds with the duplicate slots. `BfsTable.Bfs.InsertFixed` is the corrected insert, which keeps every index in exactly one slot.
