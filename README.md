# EVRPTW / VRPTW formulations in Dafny

This project models the deterministic logic around the two Gurobi routing
formulations of the repository. The solver's search is not modelled.

- **Instance reader** (`EVRPTW/read_data.py`):
  - `read_instance` skips the header of the node block and routes every other row by its type token (`d`, `f`, `c`). It keeps the values after the id and type tokens, and takes one vehicle value from the last token of each line of the vehicle block, with its slashes removed.
  - `append_data` grows six parallel node arrays in place, in whole passes over its source rows.
- **EVRPTW formulation** (`EVRPTW/evrptw.py`, module `Evrptw`):
  - The node arrays are laid out as depot, every recharge station twice, the clients, then the depot again.
  - The index partitions `depot_0`, `F`, `V` and `depot_np1` and their unions are modelled, as are the arc list `A` and the maps `d` and `t`.
  - Constraint families c1–c10 and the objective are read as a checker over a candidate assignment `x`, `tau`, `u`, `b`.
- **VRPTW formulation** (`VRPTW/vrptw.py`, module `Vrptw`):
  - The same construction without stations, with the vehicle speed overridden to 52.5.
  - Constraints eq 2–9 and the objective.
  - The decoder that turns the solver's answer into `vehicles_used` and `total_route_time`.
- **Driver** (`run.py`, module `Run`):
  - Selecting the small, large or all instance sets from a directory listing by file-name suffix.
  - The `STATUS_CODE` table.
  - Deriving an instance name from its file name.

`IndexSpace` holds the shared vocabulary:
- integer ranges, and pair lists with their membership and size;
- the counting sums that degree constraints are made of, and flow balance;
- weighted sums over arcs;
- a descent lemma for chains of active arcs.

`Results` holds `Option`/`Result`, and `Vehicles` the five-value vehicle record.

`append_data` is the class `ReadData.NodeTable`:
- its fields are the six arrays;
- its methods are proved against `Passes`, which describes the rows appended, and `Column`, which describes one array's share of them.

Both `BuildGraph` methods run the four (three) `append_data` calls on a fresh table. They are proved to produce the graph described by `GraphOf`.

## Model

| member | source | states |
|---|---|---|
| Vehicles.Unpack | EVRPTW/evrptw.py:47 | unpacking succeeds exactly for five values, and the record's fields are those values in order `Q, C, h, g, v` |
| Vehicles.UnpackFields | VRPTW/vrptw.py:7 | unpacking a record's own five values gives the record back |
| ReadData.Passes | EVRPTW/read_data.py:71-72 | `repeat` whole passes over rows that have six fields append only rows that have six fields |
| ReadData.PassesLength | EVRPTW/read_data.py:71-72 | `repeat` passes append exactly `repeat * len(source)` rows, and none when `repeat <= 0` |
| ReadData.PassesAt | EVRPTW/read_data.py:71-72 | the k-th appended row is `source[k mod len(source)]`: repetition is whole passes, not per row |
| ReadData.NoPassAppendsNothing | EVRPTW/read_data.py:71-72 | with `repeat <= 0` or an empty source nothing is appended |
| ReadData.ColumnsRow | EVRPTW/read_data.py:73-78 | `Column(rows, k)` is field `k` of every row, in row order: what one array receives. Read across at `i`, the six columns are the first six fields of row `i`, so the arrays stay in lockstep |
| ReadData.ColumnsAppend | EVRPTW/read_data.py:72-78 | appending more rows appends to each array separately |
| ReadData.HasFieldsAppend | EVRPTW/read_data.py:72-78 | concatenated row lists keep six fields per row |
| ReadData.NodeTable.constructor | EVRPTW/evrptw.py:40 | the six arrays start empty |
| ReadData.NodeTable.AppendData | EVRPTW/read_data.py:71-78 | each array becomes its old contents followed by its column of `Passes(source, repeat)`, so old entries stay a prefix and every array grows by `repeat * len(source)` |
| ReadData.NodeTable.AppendPass | EVRPTW/read_data.py:72-78 | one pass over `source` appends each array's column of `source` in row order |
| ReadData.NodeTable.AppendRow | EVRPTW/read_data.py:73-78 | one row sends field 0 to `x_c`, 1 to `y_c`, 2 to `q`, 3 to `e`, 4 to `l`, 5 to `s` and changes nothing else |
| ReadData.RunLength | EVRPTW/read_data.py:32 | the leading run of non-whitespace characters ends at the first whitespace |
| ReadData.WordsAreWords | EVRPTW/read_data.py:32 | every token of `split()` is non-empty and free of whitespace |
| ReadData.WordsOfUnwords | EVRPTW/read_data.py:32 | `Words` models `str.split()` with no argument. Splitting tokens joined by blanks gives the tokens back |
| ReadData.WithoutRemoves | EVRPTW/read_data.py:41 | `Without(s, c)` models `s.replace(c, '')`. It leaves no `c`, and leaves a string without `c` unchanged |
| ReadData.WithoutAppend | EVRPTW/read_data.py:41 | removing a character distributes over concatenation |
| ReadData.FirstShort | EVRPTW/read_data.py:31-33 | the line where `values[1]` raises has fewer than two tokens, and every line before it has enough |
| ReadData.FirstShortUnique | EVRPTW/read_data.py:31-33 | that line is the only one with this property |
| ReadData.RouteAppend | EVRPTW/read_data.py:31-38 | routing keeps file order: the rows of a longer file follow those of its prefix |
| ReadData.RouteStep | EVRPTW/read_data.py:33-38 | `Route(toks, kind)` is the `if`/`elif` chain over the node lines. One more line extends exactly the role list its type token names |
| ReadData.Dropped | EVRPTW/read_data.py:33-38 | no line is dropped exactly when every type token is `d`, `f` or `c` |
| ReadData.RouteSizes | EVRPTW/read_data.py:33-38 | every node line lands in exactly one role list or is dropped |
| ReadData.RouteLines | EVRPTW/read_data.py:31-38 | each row of a role list is `NodeValues` of a node line whose type token names that role, i.e. the parsed tokens after id and type. The lines are taken in file order, and every line of that type is taken |
| ReadData.TrailingSlashDropped | EVRPTW/read_data.py:41 | a trailing `/` on a token is removed and the rest kept |
| ReadData.TrailingSlashIgnored | EVRPTW/read_data.py:41 | `VehicleValue` is `float(row.split()[-1].replace('/', ''))`, and `VehicleValues` applies it to each line of block 1. A vehicle line ending in `w/` gives the value of `w` |
| ReadData.ReadInstance | EVRPTW/read_data.py:24-43 | the header is skipped, and `Tokens` splits each line as `row.strip().split()` does. The three role lists are `Route` of the node lines for `d`, `f` and `c`, and the vehicle list is `VehicleValues` of block 1. A node line with fewer than two tokens, a missing vehicle block or an empty vehicle line gives the error Python raises, at the first offending line |
| IndexSpace.InRange | EVRPTW/evrptw.py:60-61 | `Range(lo, hi)` is `range(lo, hi)` as a list. Membership in it is `lo <= i < hi` |
| IndexSpace.RangeSplit | EVRPTW/evrptw.py:67 | adjacent ranges concatenate to one range |
| IndexSpace.PairsMembership | EVRPTW/evrptw.py:82 | `Pairs(S, T)` is the comprehension over `S × T` with `i != j`. A pair is in it exactly when its ends are in `S` and `T` and differ |
| IndexSpace.ArcsMembership | EVRPTW/evrptw.py:69 | `Arcs(nodes)` is `A`, the pairs over `nodes × nodes`. It holds exactly the ordered pairs of distinct nodes |
| IndexSpace.PairsLength | EVRPTW/evrptw.py:69 | over distinct nodes, `|S| * (N - 1)` pairs leave the sources `S` |
| IndexSpace.ArcsLength | EVRPTW/evrptw.py:69 | `|A| = N(N-1)` for `N` distinct nodes |
| IndexSpace.DistancesSymmetric | EVRPTW/evrptw.py:70 | for a symmetric `hypot` and a symmetric arc list, `d[i, j] = d[j, i]` |
| IndexSpace.DistancesNonNegative | EVRPTW/evrptw.py:70 | a non-negative `hypot` gives non-negative distances |
| IndexSpace.ScaleIsProduct | EVRPTW/evrptw.py:102 | the big-M terms `w * x` and `w * (1 - x)` with binary `x` |
| IndexSpace.OutCountBound | EVRPTW/evrptw.py:90 | `OutCount(x, i, T)` is `quicksum(x[i, j] for j in T if i != j)` and `InCount` is its mirror. An out-degree over `T` is at most `|T|` |
| IndexSpace.OutCountAgree | VRPTW/vrptw.py:45 | an out-degree reads `x` only on the arcs it sums over |
| IndexSpace.InCountAgree | VRPTW/vrptw.py:49 | so does an in-degree |
| IndexSpace.FlowBalance | EVRPTW/evrptw.py:98 | if every inner node has out-degree equal to in-degree, the source's out-degree equals the sink's in-degree |
| IndexSpace.ActiveArcs | EVRPTW/evrptw.py:82 | the active arcs are exactly the arcs with `x` set |
| IndexSpace.WeightedSumIsActiveTotal | EVRPTW/evrptw.py:82 | `WeightedSum(arcs, w, x)` is `quicksum(w[i, j] * x[i, j])`. It is the total `w` of the active arcs |
| IndexSpace.TotalNonNegative | EVRPTW/evrptw.py:82 | a total of non-negative weights is non-negative |
| IndexSpace.WeightedSumAppend | VRPTW/vrptw.py:81 | a weighted sum splits along a concatenation of arc lists |
| IndexSpace.WeightedSumInactive | VRPTW/vrptw.py:81 | unused arcs contribute nothing |
| IndexSpace.WeightedSumAgree | VRPTW/vrptw.py:39 | a weighted sum reads `x` only on its arcs |
| IndexSpace.WeightedSumDivided | VRPTW/vrptw.py:27 | summing `d / v` is dividing the sum of `d` by `v` |
| IndexSpace.PairsAppendSources | VRPTW/vrptw.py:25 | pairs over concatenated sources concatenate |
| IndexSpace.WeightedPairsSplit | VRPTW/vrptw.py:39 | a weighted sum over `S × (T1 + T2)` splits into the two target sets |
| IndexSpace.Descent | VRPTW/vrptw.py:53 | if each step of a walk lowers a potential by at least its cost, the end is at least the summed cost below the start |
| Evrptw.NodesLayout | EVRPTW/evrptw.py:55-67 | `V_line_0_np1` is `0 .. 2S+C+1` in order and without repetition; `F` has 2S members, `V` has C, and there are 2S+C+2 nodes |
| Evrptw.NodeMembership | EVRPTW/evrptw.py:58-67 | `F = [1..2S]`, `V = [2S+1..2S+C]`, nodes `0..2S+C+1`, so the parts are disjoint and cover the index space |
| Evrptw.ArcSet | EVRPTW/evrptw.py:69 | `A` holds exactly the ordered pairs of distinct indices in `0..np1` |
| Evrptw.ArcCount | EVRPTW/evrptw.py:69 | `|A| = (2S+C+2)(2S+C+1)` |
| Evrptw.LayoutLength | EVRPTW/evrptw.py:49-55 | with one depot row the arrays have 2S+C+2 entries |
| Evrptw.LayoutShape | EVRPTW/evrptw.py:49-52 | rows with six fields give 2S+C+2 laid-out rows with six fields |
| Evrptw.LayoutAt | EVRPTW/evrptw.py:49-59 | `Layout` is the rows the four `append_data` calls append. Node `i` is the depot at 0 and np1, station `(i-1) mod S` on `F`, client `i-2S-1` on `V` |
| Evrptw.StationAt | EVRPTW/evrptw.py:50 | node `i` of `F` is station `(i-1) mod S` |
| Evrptw.StationPass | EVRPTW/evrptw.py:50 | the first pass is stations `1..S` in order and the second `S+1..2S` |
| Evrptw.StationCopies | EVRPTW/evrptw.py:50 | rows `k` and `k+S` are the same station row |
| Evrptw.LayoutFields | EVRPTW/evrptw.py:49-52 | the layout has six fields per row exactly when every input row has |
| Evrptw.LayoutColumns | EVRPTW/evrptw.py:49-52 | each array is the concatenation of the four calls' columns |
| Evrptw.GraphOf | EVRPTW/evrptw.py:40-71 | the built graph keeps the vehicle record and the part sizes, and its six arrays have 2S+C+2 entries |
| Evrptw.GraphOfWellFormed | EVRPTW/evrptw.py:40-71 | `d` (`Distances`) and `t` (`TravelTimes`) are defined on exactly the distinct pairs of nodes. `A` is the arc list, `t = d / v`, and `d` is measured by `hypot` |
| Evrptw.GraphMeasured | EVRPTW/evrptw.py:70 | every `d[i, j]` is `hypot` of the coordinate differences |
| Evrptw.NodeData | EVRPTW/evrptw.py:40-52 | node `i` of the graph holds the first six fields of layout row `i` |
| Evrptw.StationCopiesAgree | EVRPTW/evrptw.py:50 | both copies of a station carry identical coordinates, demand, window and service time |
| Evrptw.DepotCopiesAgree | EVRPTW/evrptw.py:49-52 | the start and end depot carry the depot row |
| Evrptw.DepotLoopLength | EVRPTW/evrptw.py:70 | the arc (0, np1) is in `d` with length `hypot(0, 0)` |
| Evrptw.ZeroLength | EVRPTW/evrptw.py:70 | an arc between equal coordinates has length `hypot(0, 0)` |
| Evrptw.BuildGraph | EVRPTW/evrptw.py:40-71 | a vehicle list of length other than five gives the unpacking error. Otherwise a row with fewer than six fields gives the `append_data` index error. Otherwise the result is the graph `GraphOf` describes |
| Evrptw.ObjectiveDomain | EVRPTW/evrptw.py:82 | `ObjectiveArcs` is the objective's index set. It holds the distinct pairs that neither enter 0 nor leave np1, and (0, np1) is among them |
| Evrptw.ObjectiveIsRouteLength | EVRPTW/evrptw.py:82 | `Objective` is `distance`. It is the summed length of the active arcs in its domain, and non-negative when distances are |
| Evrptw.C4Cases | EVRPTW/evrptw.py:101-102 | on a used arc `tau[j] >= tau[i] + t[i,j] + s[i]`; on an unused arc `tau[j] >= tau[i] - l[0]` |
| Evrptw.C5Cases | EVRPTW/evrptw.py:105-106 | on a used arc out of a station `tau[j] >= tau[i] + t[i,j] + g(Q - b[i])`; unused, the bound is lowered by `l[0] + gQ` |
| Evrptw.C7Cases | EVRPTW/evrptw.py:113-114 | on a used arc `u[j] <= u[i] - q[i]`; on an unused arc `u[j] <= u[i] + C` |
| Evrptw.C9Cases | EVRPTW/evrptw.py:121-122 | on a used arc out of a client `b[j] <= b[i] - h d[i,j]`; on an unused arc `b[j] <= b[i] + Q` |
| Evrptw.C10Cases | EVRPTW/evrptw.py:125-126 | on a used arc out of the depot or a station `b[j] <= Q - h d[i,j]`; on an unused arc `b[j] <= Q` |
| Evrptw.DegreeBalance | EVRPTW/evrptw.py:89-98 | `C1`–`C10` are the ten constraint families, and `Feasible` conjoins them with `VarBounds`. Under c1 and c3 every client is entered exactly once, and as many arcs leave 0 as enter np1 |
| Evrptw.StationVisits | EVRPTW/evrptw.py:93-98 | under c2 and c3 every station copy is entered at most once |
| Evrptw.LoadChain | EVRPTW/evrptw.py:112-118 | `Demands` lists the demand of each node a walk leaves. Along any walk of active arcs from the depot, under c7 and c8, the summed demand is at most `C` |
| Evrptw.ChargeFirst | EVRPTW/evrptw.py:125-126 | leaving the depot or a station, the battery arrives with at most `Q - h d` |
| Evrptw.ChargeLater | EVRPTW/evrptw.py:121-122 | each step out of a client lowers the battery by at least `h d` |
| Evrptw.ChargeTail | EVRPTW/evrptw.py:121-122 | after the first step the battery falls by the summed consumption and stays non-negative |
| Evrptw.ChargeChain | EVRPTW/evrptw.py:121-126 | `Consumption` lists the energy `h d` of each step. Under c9 and c10 the energy spent between two charges never exceeds `Q` |
| Evrptw.TravelIndices | EVRPTW/evrptw.py:101-106 | a walk along active arcs stays on valid node indices, and its steps are arcs of `t` |
| Evrptw.TimeStep | EVRPTW/evrptw.py:101-106 | each used step delays the arrival by the travel time plus `Dwell`: service time out of the depot or a client (c4), recharge time `g(Q - b[i])` out of a station copy (c5) |
| Evrptw.WindowsFit | EVRPTW/evrptw.py:109-110 | under c6, an arrival-time gap between two nodes fits between the first window opening and the second window closing |
| Evrptw.TimeChain | EVRPTW/evrptw.py:101-110 | `StepTimes` is travel plus service or recharge time for each step. Along a walk of active arcs, arrival at its end is no earlier than arrival at its start plus those times, so they fit between the start's window opening and the end's window closing |
| Vrptw.NodesLayout | VRPTW/vrptw.py:18-23 | the nodes are `0..C+1` in order without repetition, and `V` has C members |
| Vrptw.NodeMembership | VRPTW/vrptw.py:18-23 | `V = [1..C]` and the nodes are `0..C+1`, so the parts are disjoint and cover the index space |
| Vrptw.NoStations | VRPTW/vrptw.py:18-23 | the VRPTW index sets are the EVRPTW ones with no stations |
| Vrptw.ArcSet | VRPTW/vrptw.py:25 | `A` holds exactly the ordered pairs of distinct nodes |
| Vrptw.ArcCount | VRPTW/vrptw.py:25 | `|A| = (C+2)(C+1)` |
| Vrptw.LayoutAt | VRPTW/vrptw.py:11-13 | node `i` is the depot at 0 and C+1 and client `i-1` between them, for C+2 nodes |
| Vrptw.LayoutWithoutStations | VRPTW/vrptw.py:11-13 | the layout is the EVRPTW layout with no stations |
| Vrptw.LayoutColumns | VRPTW/vrptw.py:11-13 | each array is the concatenation of the three calls' columns |
| Vrptw.GraphOf | VRPTW/vrptw.py:6-27 | the built graph has C+2 entries in each array |
| Vrptw.GraphOfWellFormed | VRPTW/vrptw.py:7-27 | `d` and `t` are on exactly the distinct pairs, `A` is the arc list and `t = d / 52.5` whatever speed the vehicle gives. The other four vehicle values are kept, and `d` is measured by `hypot` |
| Vrptw.GraphMeasured | VRPTW/vrptw.py:26 | every `d[i, j]` is `hypot` of the coordinate differences |
| Vrptw.NodeData | VRPTW/vrptw.py:11-13 | node `i` holds the depot's six fields at both ends and client `i-1`'s in between |
| Vrptw.BuildGraph | VRPTW/vrptw.py:6-27 | unpacking error for a vehicle list of length other than five, otherwise index error for a short row, otherwise the graph `GraphOf` describes |
| Vrptw.ObjectiveDomain | VRPTW/vrptw.py:38-40 | the objective ranges over the distinct pairs that neither enter 0 nor leave np1, and (0, np1) is among them |
| Vrptw.ObjectiveIsRouteLength | VRPTW/vrptw.py:38-40 | `Objective` is the objective expression. It is the summed length of the active arcs in its domain, and non-negative when distances are |
| Vrptw.Eq5Cases | VRPTW/vrptw.py:52-53 | on a used arc `tau[j] >= tau[i] + t[i,j] + s[i]`; on an unused arc `tau[j] >= tau[i] - l[0]` |
| Vrptw.Eq8Cases | VRPTW/vrptw.py:60-61 | on a used arc `u[j] <= u[i] - q[i]`; on an unused arc `u[j] <= u[i] + C` |
| Vrptw.DegreeBalance | VRPTW/vrptw.py:44-49 | `Eq2`–`Eq9` are the constraints, and `Feasible` conjoins them with `VarBounds`. Under eq 2 and eq 4 every client is entered exactly once, and as many arcs leave 0 as enter np1 |
| Vrptw.RouteIndices | VRPTW/vrptw.py:53 | a walk along active arcs stays on valid indices, and its steps are arcs of `t` |
| Vrptw.TimeStep | VRPTW/vrptw.py:52-53 | each used step delays the arrival by at least travel plus service time |
| Vrptw.TimeChain | VRPTW/vrptw.py:52-57 | `StepTimes` is the travel plus service time of each step. Along a walk of active arcs, arrival at its end is no earlier than arrival at its start plus those times (eq 5), so they fit between the start's window opening and the end's window closing (eq 7) |
| Vrptw.LoadStep | VRPTW/vrptw.py:60-61 | each used step lowers the load by at least the demand left behind |
| Vrptw.LoadChain | VRPTW/vrptw.py:59-65 | `Demands` lists the demand of each node a walk leaves. Along any walk of active arcs from the depot, under eq 8 and eq 9, the summed demand never exceeds `C` |
| Vrptw.FreeArcs | VRPTW/vrptw.py:38-65 | arcs into 0 and out of np1 are read by no constraint and no objective term: changing them keeps feasibility and the objective |
| Vrptw.ArcsAsObjective | VRPTW/vrptw.py:81 | when those arcs are unused, a weighted sum over all of `A` equals the sum over the objective's domain |
| Vrptw.CountAboveBound | VRPTW/vrptw.py:80 | the count of arcs leaving the depot is at most the number of targets |
| Vrptw.CountAboveOfBinary | VRPTW/vrptw.py:80 | for binary solution values the count is the depot's out-degree |
| Vrptw.RouteTimeNonNegative | VRPTW/vrptw.py:81 | with non-negative `t` the route time is non-negative |
| Vrptw.RouteTimeOfBinary | VRPTW/vrptw.py:81 | for binary solution values the route time is `sum(t * x)` |
| Vrptw.DecodeBounds | VRPTW/vrptw.py:79-84 | `Decode` returns `vehicles_used` as `CountAbove` (solution values above 0.99 on the depot's arcs) and `total_route_time` as `RouteTime` (`t * x` over the arcs above 0.99). With no solution both are 0. `vehicles_used <= C+1`, and `total_route_time >= 0` when `d >= 0` |
| Vrptw.DecodeBinary | VRPTW/vrptw.py:79-84 | for binary values, `vehicles_used` is the depot's out-degree. Under eq 2 and eq 4 it equals the number of arrivals at np1. With no arc into 0 or out of np1 used, `total_route_time` is the objective divided by 52.5 |
| Vrptw.UsedFromDepot | VRPTW/vrptw.py:80 | the decoder's count is the depot's out-degree |
| Vrptw.TimeAsObjective | VRPTW/vrptw.py:81 | with those arcs unused, time over `A` is the objective over the speed |
| Run.FilterMembership | run.py:27-28 | `Filter` is the list comprehension. A file is kept exactly when it is listed and passes the test |
| Run.FilterAppend | run.py:27-28 | filtering keeps listing order |
| Run.FilterIdempotent | run.py:27-28 | filtering twice changes nothing more |
| Run.SmallMark | run.py:27 | a small instance's name has `5` or `0` five places from its end |
| Run.LargeMark | run.py:28 | a large instance's name has `1` there |
| Run.SuffixesExclusive | run.py:27-28 | no file ends in both a small and the large suffix |
| Run.InstanceSets | run.py:25-34 | `GetInstances` is the dictionary lookup with `.get`. `small` and `large` select exactly the listed files with their suffixes, and `all` and any other key select both. The two sets share no file |
| Run.AllSetAppend | run.py:29-34 | `all` is the small set followed by the large set, each in listing order |
| Run.StatusTable | run.py:8-13 | `StatusCode` is `STATUS_CODE`, and `StatusName` looks a status up in it, failing outside the table. The table covers exactly 1..17, with 2, 3 and 9 named `OPTIMAL`, `INFEASIBLE` and `TIME_LIMIT` |
| Run.StatusNamesDistinct | run.py:8-13 | distinct codes have distinct names |
| Run.RemoveAll | run.py:37 | `replace(pat, '')` never lengthens a string |
| Run.RemoveAbsent | run.py:37 | a string without the pattern is unchanged |
| Run.InstanceNameDropsSuffix | run.py:37 | `InstanceName` is `file.replace('.txt', '')`, built on `RemoveAll`. A file name whose only `.txt` is its suffix loses exactly its last four characters |

## Left out

- Gurobi model construction, search and results are left out: `gp.Model`, `addVars`, `optimize`, `ObjVal`, `Status`, `Runtime` and `MIPgap`. The constraints are predicates over a given assignment. Gurobi's default lower bound 0 on the continuous variables is the `VarBounds` conjunct.
- `np.hypot` is a parameter `hypot` of the graph builders. The properties that need it assume symmetry or non-negativity.
- `float(...)` is a parameter `parse`, so no number syntax is modelled. Floating point is `real`, and overflow, rounding, `inf` and `nan` are not modelled.
- File and directory I/O are left out. `read_instance` receives the file already split into blocks of lines, so the `strip().split('\n\n')` and `splitlines()` step is not modelled. `get_instances` receives the directory listing.
- Plotting (`common/plot_instance.py` and the `plot` branches) is left out, as are `print`, argument parsing, the thread pool and the writing of `resultados.txt`.
- The EVRPTW metrics (`vehicles_used`, `total_route_time`, `qtd_recharge`) are not modelled: `EVRPTW/evrptw.py` computes none of them. Its `solver` returns three values, while `run.py:40` passes a threads argument and unpacks seven.
- Both solve paths in `run.py` read instances with `common`'s `read_instance`, and `VRPTW/vrptw.py` lays out nodes with `common`'s `append_data`. `common` is not part of this model. The `EVRPTW/read_data.py` functions of the same names stand for it.
- Evrptw.BuildGraph: requires exactly one depot row, because the index formulas assume one depot and ignore `num_depots`. It also requires a non-zero speed. With `v == 0` the division in `t` yields `inf` or `nan` in numpy, and neither is a `real`.
- Vrptw.BuildGraph: requires exactly one depot row, for the same reason.
- ReadData.NodeTable.AppendData: requires six fields per row. A shorter row makes the source raise `IndexError` part-way through a row, and no caller observes the partly appended lists. The graph builders check the rows first and return `ShortRow`.
- ReadData.ReadInstance: `vehicle` values come from `row.split()`, which has the same tokens as `row.strip().split()`. Index errors are reported by line and not by message text.
- Evrptw.ObjectiveDomain: the direct arc (0, np1) is counted in the objective and its length is `hypot(0, 0)`. The code's comprehension admits it because 0 is a source and np1 a target.
- Vrptw.DecodeBinary: `total_route_time` sums `t * x` over all of `A`, including arcs into 0 and out of np1 that no constraint reads. It equals the objective over 52.5 only when those arcs are unused; `FreeArcs` shows such arcs are free.
- Vrptw.DecodeBounds: `total_route_time >= 0` is stated for non-negative `d` with the fixed speed 52.5. Solution values are any reals, and the threshold 0.99 is kept as written.
