/**
 * The EVRPTW formulation of EVRPTW/evrptw.py without the solver: the node
 * arrays the four `append_data` calls lay out, the index partitions and
 * the arc list, the distance and travel-time maps, and every constraint
 * family c1-c10 together with the objective, read as a checker over a
 * candidate assignment.
 */
module Evrptw {
  import opened Results
  import opened IndexSpace
  import opened Vehicles
  import opened ReadData

  // ------------------------------------------------------------------
  // Index partitions (S station rows, C client rows, one depot row)
  // ------------------------------------------------------------------

  /** The end-depot index `num_recharge_stations + num_clients + 1`, where
      every station row is laid out twice. */
  function Np1(S: nat, C: nat): nat
  {
    2 * S + C + 1
  }

  /** `F`: the station copies. */
  function F(S: nat): seq<int>
  {
    Range(1, 2 * S + 1)
  }

  /** `V`: the clients. */
  function V(S: nat, C: nat): seq<int>
  {
    Range(2 * S + 1, 2 * S + C + 1)
  }

  function F0(S: nat): seq<int> { [0] + F(S) }
  function V0(S: nat, C: nat): seq<int> { [0] + V(S, C) }
  function VLine(S: nat, C: nat): seq<int> { F(S) + V(S, C) }
  function VLine0(S: nat, C: nat): seq<int> { [0] + VLine(S, C) }
  function VLineNp1(S: nat, C: nat): seq<int> { VLine(S, C) + [Np1(S, C)] }

  /** `V_line_0_np1 = depot_0 + F + V + depot_np1`. */
  function Nodes(S: nat, C: nat): seq<int>
  {
    [0] + F(S) + V(S, C) + [Np1(S, C)]
  }

  /** The node list is `0 .. 2S+C+1` in order, without repetition, and the
      four parts have sizes 1, 2S, C and 1; so they are pairwise disjoint
      and cover the index space. */
  lemma NodesLayout(S: nat, C: nat)
    ensures Nodes(S, C) == Range(0, Np1(S, C) + 1)
    ensures Distinct(Nodes(S, C))
    ensures |F(S)| == 2 * S && |V(S, C)| == C && |Nodes(S, C)| == 2 * S + C + 2
  {
    RangeSplit(0, 1, 2 * S + 1);
    RangeSplit(0, 2 * S + 1, 2 * S + C + 1);
    RangeSplit(0, 2 * S + C + 1, Np1(S, C) + 1);
  }

  /** Which part of the partition an index falls in. */
  lemma NodeMembership(S: nat, C: nat, i: int)
    ensures i in Nodes(S, C) <==> 0 <= i <= Np1(S, C)
    ensures i in F(S) <==> 1 <= i <= 2 * S
    ensures i in V(S, C) <==> 2 * S + 1 <= i <= 2 * S + C
  {
    NodesLayout(S, C);
    InRange(0, Np1(S, C) + 1, i);
    InRange(1, 2 * S + 1, i);
    InRange(2 * S + 1, 2 * S + C + 1, i);
  }

  /** `A` has every ordered pair of distinct nodes and N(N-1) arcs. */
  lemma ArcSet(S: nat, C: nat)
    ensures forall e {:trigger e in Arcs(Nodes(S, C))} :: e in Arcs(Nodes(S, C)) <==> 0 <= e.0 <= Np1(S, C) && 0 <= e.1 <= Np1(S, C) && e.0 != e.1
  {
    ArcsMembership(Nodes(S, C));
    forall i ensures i in Nodes(S, C) <==> 0 <= i <= Np1(S, C) {
      NodeMembership(S, C, i);
    }
  }

  // ------------------------------------------------------------------
  // Node arrays
  // ------------------------------------------------------------------

  /** The rows the four `append_data` calls lay out: the depot, every
      station twice over (two whole passes), the clients, the depot again. */
  function Layout(depot: seq<Row>, stations: seq<Row>, clients: seq<Row>): seq<Row>
  {
    depot + Passes(stations, 2) + clients + depot
  }

  /** One depot row, two passes over the stations and the clients give
      2S+C+2 rows. */
  lemma LayoutLength(depot: seq<Row>, stations: seq<Row>, clients: seq<Row>)
    requires |depot| == 1
    ensures |Layout(depot, stations, clients)| == Np1(|stations|, |clients|) + 1
  {
    PassesLength(stations, 2);
  }

  /** Rows of six or more fields give a layout of such rows. */
  lemma LayoutShape(depot: seq<Row>, stations: seq<Row>, clients: seq<Row>)
    requires |depot| == 1
    requires HasFields(depot) && HasFields(stations) && HasFields(clients)
    ensures |Layout(depot, stations, clients)| == Np1(|stations|, |clients|) + 1
    ensures HasFields(Layout(depot, stations, clients))
  {
    LayoutLength(depot, stations, clients);
    var P := Passes(stations, 2);
    HasFieldsAppend(depot, P);
    HasFieldsAppend(depot + P, clients);
    HasFieldsAppend(depot + P + clients, depot);
  }


  /** Node `i` is the depot at both ends, station `(i-1) mod S` on the
      station copies and client `i-2S-1` on the clients. */
  lemma {:induction false} LayoutAt(depot: seq<Row>, stations: seq<Row>, clients: seq<Row>, i: int)
    requires |depot| == 1 && 0 <= i <= Np1(|stations|, |clients|)
    ensures |Layout(depot, stations, clients)| == Np1(|stations|, |clients|) + 1
    ensures Layout(depot, stations, clients)[i] ==
      if i == 0 || i == Np1(|stations|, |clients|) then depot[0]
      else if i <= 2 * |stations| then stations[(i - 1) % |stations|]
      else clients[i - 2 * |stations| - 1]
  {
    var S := |stations|;
    var P := Passes(stations, 2);
    PassesLength(stations, 2);
    var L := Layout(depot, stations, clients);
    assert L == depot + P + clients + depot;
    if 1 <= i <= 2 * S {
      StationAt(depot, stations, clients, i);
    } else if 2 * S < i < Np1(S, |clients|) {
      assert L[i] == clients[i - 2 * S - 1];
    }
  }

  /** Node `i` on the station copies is station `(i-1) mod S`. */
  lemma StationAt(depot: seq<Row>, stations: seq<Row>, clients: seq<Row>, i: int)
    requires |depot| == 1 && 1 <= i <= 2 * |stations|
    ensures i < |Layout(depot, stations, clients)|
    ensures Layout(depot, stations, clients)[i] == stations[(i - 1) % |stations|]
  {
    var P := Passes(stations, 2);
    PassesLength(stations, 2);
    assert Layout(depot, stations, clients) == depot + P + clients + depot;
    PassesAt(stations, 2, i - 1);
  }

  /** The same without remainders: the first pass is stations `1..S`, the
      second `S+1..2S`. */
  lemma StationPass(depot: seq<Row>, stations: seq<Row>, clients: seq<Row>, i: int)
    requires |depot| == 1 && 1 <= i <= 2 * |stations|
    ensures i < |Layout(depot, stations, clients)|
    ensures i <= |stations| ==> Layout(depot, stations, clients)[i] == stations[i - 1]
    ensures i > |stations| ==> Layout(depot, stations, clients)[i] == stations[i - 1 - |stations|]
  {
    var S := |stations|;
    StationAt(depot, stations, clients, i);
    if i <= S {
      SecondPass(S, i - 1);
    } else {
      SecondPass(S, i - 1 - S);
      assert S + (i - 1 - S) == i - 1;
    }
  }

  /** Station copies `k` and `k+S` carry the same row. */
  lemma {:induction false} StationCopies(depot: seq<Row>, stations: seq<Row>, clients: seq<Row>, k: int)
    requires |depot| == 1 && 1 <= k <= |stations|
    ensures Layout(depot, stations, clients)[k] == Layout(depot, stations, clients)[k + |stations|]
  {
    var S := |stations|;
    var L := Layout(depot, stations, clients);
    StationPass(depot, stations, clients, k);
    StationPass(depot, stations, clients, k + S);
    assert k + S - 1 - S == k - 1;
    assert L[k] == stations[k - 1] == L[k + S];
  }

  /** An offset into the first or the second pass names the same station. */
  lemma SecondPass(S: nat, m: nat)
    requires m < S
    ensures m % S == m && (S + m) % S == m
  {
    ModOfOffset(0, S, m);
    assert 0 * S + m == m;
    ModOfOffset(1, S, m);
    assert 1 * S + m == S + m;
  }

  /** Every laid-out row has the six fields exactly when every input row has. */
  lemma LayoutFields(depot: seq<Row>, stations: seq<Row>, clients: seq<Row>)
    ensures HasFields(Layout(depot, stations, clients)) <==> HasFields(depot) && HasFields(stations) && HasFields(clients)
  {
    var P := Passes(stations, 2);
    assert P == stations + stations;
    var L := Layout(depot, stations, clients);
    if HasFields(L) {
      assert forall i :: 0 <= i < |depot| ==> L[i] == depot[i];
      assert forall i :: 0 <= i < |stations| ==> L[|depot| + i] == stations[i];
      assert forall i :: 0 <= i < |clients| ==> L[|depot| + |P| + i] == clients[i];
    }
  }

  /** The six columns of the layout split along its four parts. */
  lemma LayoutColumns(depot: seq<Row>, stations: seq<Row>, clients: seq<Row>)
    requires HasFields(depot) && HasFields(stations) && HasFields(clients)
    ensures HasFields(Layout(depot, stations, clients))
    ensures forall k :: 0 <= k < RowFields ==>
      Column(Layout(depot, stations, clients), k) ==
        Column(Passes(depot, 1), k) + Column(Passes(stations, 2), k) + Column(Passes(clients, 1), k) + Column(Passes(depot, 1), k)
  {
    var P := Passes(stations, 2);
    assert Passes(depot, 1) == depot;
    assert Passes(clients, 1) == clients;
    ColumnsAppend(depot, P);
    ColumnsAppend(depot + P, clients);
    ColumnsAppend(depot + P + clients, depot);
  }

  // ------------------------------------------------------------------
  // The graph handed to the solver
  // ------------------------------------------------------------------

  /** Node arrays, vehicle, partition sizes, arc list and the `d` and `t`
      maps over it. */
  datatype Graph = Graph(
    xc: seq<real>, yc: seq<real>, q: seq<real>, e: seq<real>, l: seq<real>, s: seq<real>,
    veh: Vehicle, stations: nat, clients: nat,
    A: seq<(int, int)>, d: map<(int, int), real>, t: map<(int, int), real>)

  /** Arrays of length 2S+C+2, and `d` and `t` defined on exactly the
      pairs of distinct nodes. */
  ghost predicate WellFormed(g: Graph)
  {
    var n := 2 * g.stations + g.clients + 2;
    var N := Nodes(g.stations, g.clients);
    |g.xc| == n && |g.yc| == n && |g.q| == n && |g.e| == n && |g.l| == n && |g.s| == n &&
    (forall i :: i in N ==> 0 <= i < n) &&
    (forall e {:trigger e in g.d} :: e in g.d <==> e.0 in N && e.1 in N && e.0 != e.1) &&
    (forall a :: a in g.t <==> a in g.d)
  }

  /** `A` lists every ordered pair of distinct nodes. */
  ghost predicate ArcList(g: Graph)
  {
    g.A == Arcs(Nodes(g.stations, g.clients))
  }

  /** `t[i, j] = d[i, j] / v` on every arc. */
  ghost predicate TravelAtSpeed(g: Graph)
  {
    g.veh.v != 0.0 && forall a :: a in g.t && a in g.d ==> g.t[a] == g.d[a] / g.veh.v
  }

  /** `d[i, j] = hypot(x_c[i] - x_c[j], y_c[i] - y_c[j])` on every arc. */
  ghost predicate MeasuredBy(g: Graph, hypot: (real, real) -> real)
  {
    |g.yc| == |g.xc| &&
    forall e {:trigger e in g.d} :: e in g.d ==>
      0 <= e.0 < |g.xc| && 0 <= e.1 < |g.xc| &&
      g.d[e] == hypot(g.xc[e.0] - g.xc[e.1], g.yc[e.0] - g.yc[e.1])
  }

  /** The graph `solver` builds for a depot, station and client rows and an
      unpacked vehicle; `hypot` stands for `np.hypot`. */
  function GraphOf(depot: seq<Row>, stations: seq<Row>, clients: seq<Row>, veh: Vehicle, hypot: (real, real) -> real): (g: Graph)
    requires |depot| == 1 && veh.v != 0.0
    requires HasFields(depot) && HasFields(stations) && HasFields(clients)
    ensures g.stations == |stations| && g.clients == |clients| && g.veh == veh
    ensures |g.xc| == |g.yc| == |g.q| == |g.e| == |g.l| == |g.s| == Np1(|stations|, |clients|) + 1
  {
    LayoutShape(depot, stations, clients);
    ArcsWithinNodes(|stations|, |clients|);
    var L := Layout(depot, stations, clients);
    var A := Arcs(Nodes(|stations|, |clients|));
    var d := Distances(A, Column(L, 0), Column(L, 1), hypot);
    Graph(Column(L, 0), Column(L, 1), Column(L, 2), Column(L, 3), Column(L, 4), Column(L, 5),
      veh, |stations|, |clients|, A, d, TravelTimes(A, d, veh.v))
  }

  /** `A` has N(N-1) arcs for the N = 2S+C+2 nodes. */
  lemma ArcCount(S: nat, C: nat)
    ensures |Arcs(Nodes(S, C))| == (2 * S + C + 2) * (2 * S + C + 1)
  {
    NodesLayout(S, C);
    ArcsLength(Nodes(S, C));
  }

  /** Every arc joins two valid array indices. */
  lemma ArcsWithinNodes(S: nat, C: nat)
    ensures ArcsWithin(Arcs(Nodes(S, C)), Np1(S, C) + 1)
  {
    ArcSet(S, C);
  }

  /** The graph `solver` builds has the shape the constraints are stated
      over. */
  lemma GraphOfWellFormed(depot: seq<Row>, stations: seq<Row>, clients: seq<Row>, veh: Vehicle, hypot: (real, real) -> real)
    requires |depot| == 1 && veh.v != 0.0
    requires HasFields(depot) && HasFields(stations) && HasFields(clients)
    ensures WellFormed(GraphOf(depot, stations, clients, veh, hypot))
    ensures TravelAtSpeed(GraphOf(depot, stations, clients, veh, hypot))
    ensures ArcList(GraphOf(depot, stations, clients, veh, hypot))
    ensures MeasuredBy(GraphOf(depot, stations, clients, veh, hypot), hypot)
  {
    var g := GraphOf(depot, stations, clients, veh, hypot);
    GraphMeasured(depot, stations, clients, veh, hypot);
    var S, C := |stations|, |clients|;
    var N := Nodes(S, C);
    forall i | i in N ensures 0 <= i < Np1(S, C) + 1 {
      NodeMembership(S, C, i);
    }
    ArcsMembership(N);
  }

  /** Every entry of `d` is `hypot` of its endpoints' coordinate
      differences. */
  lemma GraphMeasured(depot: seq<Row>, stations: seq<Row>, clients: seq<Row>, veh: Vehicle, hypot: (real, real) -> real)
    requires |depot| == 1 && veh.v != 0.0
    requires HasFields(depot) && HasFields(stations) && HasFields(clients)
    ensures MeasuredBy(GraphOf(depot, stations, clients, veh, hypot), hypot)
  {
    var g := GraphOf(depot, stations, clients, veh, hypot);
    GraphDistances(depot, stations, clients, veh, hypot);
    DistancesMeasure(g, hypot);
  }

  /** A graph whose `d` is the distance map over its own arcs and
      coordinates is measured by `hypot`. */
  lemma DistancesMeasure(g: Graph, hypot: (real, real) -> real)
    requires |g.xc| == |g.yc| && ArcsWithin(g.A, |g.xc|)
    requires g.d == Distances(g.A, g.xc, g.yc, hypot)
    ensures MeasuredBy(g, hypot)
  {
    DistanceOf(g.A, g.xc, g.yc, hypot);
  }

  /** The six fields of node `i`. */
  function NodeFields(g: Graph, i: int): Row
    requires |g.xc| == |g.yc| == |g.q| == |g.e| == |g.l| == |g.s| && 0 <= i < |g.xc|
  {
    [g.xc[i], g.yc[i], g.q[i], g.e[i], g.l[i], g.s[i]]
  }

  /** Node `i` of the graph holds the first six fields of layout row `i`. */
  lemma NodeData(depot: seq<Row>, stations: seq<Row>, clients: seq<Row>, veh: Vehicle, hypot: (real, real) -> real, i: int)
    requires |depot| == 1 && veh.v != 0.0
    requires HasFields(depot) && HasFields(stations) && HasFields(clients)
    requires 0 <= i <= Np1(|stations|, |clients|)
    ensures NodeFields(GraphOf(depot, stations, clients, veh, hypot), i) == Layout(depot, stations, clients)[i][..RowFields]
  {
    var L := Layout(depot, stations, clients);
    LayoutColumns(depot, stations, clients);
    LayoutLength(depot, stations, clients);
    ColumnsRow(L, i);
  }

  /** Both copies of a station carry the same coordinates, demand, window
      and service time. */
  lemma StationCopiesAgree(depot: seq<Row>, stations: seq<Row>, clients: seq<Row>, veh: Vehicle, hypot: (real, real) -> real, k: int)
    requires |depot| == 1 && veh.v != 0.0
    requires HasFields(depot) && HasFields(stations) && HasFields(clients)
    requires 1 <= k <= |stations|
    ensures var g := GraphOf(depot, stations, clients, veh, hypot);
      NodeFields(g, k) == NodeFields(g, k + |stations|)
  {
    var L := Layout(depot, stations, clients);
    NodeData(depot, stations, clients, veh, hypot, k);
    NodeData(depot, stations, clients, veh, hypot, k + |stations|);
    StationCopies(depot, stations, clients, k);
    assert L[k][..RowFields] == L[k + |stations|][..RowFields];
  }

  /** The graph's distance map is built over its own arc list and
      coordinate arrays. */
  lemma GraphDistances(depot: seq<Row>, stations: seq<Row>, clients: seq<Row>, veh: Vehicle, hypot: (real, real) -> real)
    requires |depot| == 1 && veh.v != 0.0
    requires HasFields(depot) && HasFields(stations) && HasFields(clients)
    ensures var g := GraphOf(depot, stations, clients, veh, hypot);
      ArcsWithin(g.A, |g.xc|) && g.d == Distances(g.A, g.xc, g.yc, hypot)
  {
    ArcsWithinNodes(|stations|, |clients|);
  }

  /** The start and end depot carry the same row. */
  lemma DepotCopiesAgree(depot: seq<Row>, stations: seq<Row>, clients: seq<Row>, veh: Vehicle, hypot: (real, real) -> real)
    requires |depot| == 1 && veh.v != 0.0
    requires HasFields(depot) && HasFields(stations) && HasFields(clients)
    ensures var g := GraphOf(depot, stations, clients, veh, hypot);
      NodeFields(g, 0) == NodeFields(g, Np1(|stations|, |clients|)) == depot[0][..RowFields]
  {
    var np1 := Np1(|stations|, |clients|);
    NodeData(depot, stations, clients, veh, hypot, 0);
    NodeData(depot, stations, clients, veh, hypot, np1);
    LayoutAt(depot, stations, clients, 0);
    LayoutAt(depot, stations, clients, np1);
  }

  /** So the direct arc from the start depot to the end depot has length
      `hypot(0, 0)`. */
  lemma DepotLoopLength(depot: seq<Row>, stations: seq<Row>, clients: seq<Row>, veh: Vehicle, hypot: (real, real) -> real)
    requires |depot| == 1 && veh.v != 0.0
    requires HasFields(depot) && HasFields(stations) && HasFields(clients)
    ensures var g := GraphOf(depot, stations, clients, veh, hypot);
      (0, Np1(|stations|, |clients|)) in g.d && g.d[(0, Np1(|stations|, |clients|))] == hypot(0.0, 0.0)
  {
    var g := GraphOf(depot, stations, clients, veh, hypot);
    var np1 := Np1(|stations|, |clients|);
    GraphOfWellFormed(depot, stations, clients, veh, hypot);
    DepotCopiesAgree(depot, stations, clients, veh, hypot);
    DepotArc(g);
    SameCoordinates(g, 0, np1);
    ZeroLength(g, hypot, 0, np1);
  }

  /** The direct arc from the start depot to the end depot is in `d`. */
  lemma DepotArc(g: Graph)
    requires WellFormed(g)
    ensures (0, Np1(g.stations, g.clients)) in g.d
  {
    NodeMembership(g.stations, g.clients, 0);
    NodeMembership(g.stations, g.clients, Np1(g.stations, g.clients));
  }

  /** Nodes with the same fields have the same coordinates. */
  lemma SameCoordinates(g: Graph, i: int, j: int)
    requires |g.xc| == |g.yc| == |g.q| == |g.e| == |g.l| == |g.s| && 0 <= i < |g.xc| && 0 <= j < |g.xc|
    requires NodeFields(g, i) == NodeFields(g, j)
    ensures g.xc[i] == g.xc[j] && g.yc[i] == g.yc[j]
  {
    assert NodeFields(g, i)[0] == NodeFields(g, j)[0];
    assert NodeFields(g, i)[1] == NodeFields(g, j)[1];
  }

  /** In a measured graph, an arc between two points with the same
      coordinates has length `hypot(0, 0)`. */
  lemma ZeroLength(g: Graph, hypot: (real, real) -> real, i: int, j: int)
    requires MeasuredBy(g, hypot) && (i, j) in g.d
    requires 0 <= i < |g.xc| && 0 <= j < |g.xc| && g.xc[i] == g.xc[j] && g.yc[i] == g.yc[j]
    ensures g.d[(i, j)] == hypot(0.0, 0.0)
  {
    assert g.d[(i, j)] == hypot(g.xc[i] - g.xc[j], g.yc[i] - g.yc[j]);
  }

  /** A list filled by the four `append_data` calls is column `k` of the
      layout. */
  lemma TableColumns(c: seq<real>, L: seq<Row>, depot: seq<Row>, stations: seq<Row>, clients: seq<Row>, k: nat)
    requires HasFields(depot) && HasFields(stations) && HasFields(clients) && k < RowFields
    requires L == Layout(depot, stations, clients)
    requires c == [] + Column(Passes(depot, 1), k) + Column(Passes(stations, 2), k) + Column(Passes(clients, 1), k) + Column(Passes(depot, 1), k)
    ensures HasFields(L) && c == Column(L, k)
  {
    LayoutColumns(depot, stations, clients);
    assert [] + Column(Passes(depot, 1), k) == Column(Passes(depot, 1), k);
  }

  /** The two ways building the graph can fail before any constraint is
      added: the vehicle list does not unpack into five values, or a node
      row has fewer than six fields (an `IndexError` in `append_data`). */
  datatype BuildError = VehicleArity(found: nat) | ShortRow

  /** Lines 40-71 of `solver`: unpack the vehicle, append the depot, the
      stations twice, the clients and the depot again into six arrays,
      then build the partitions, `A`, `d` and `t`. */
  method BuildGraph(depot: seq<Row>, stations: seq<Row>, clients: seq<Row>, vehicle: seq<real>, hypot: (real, real) -> real)
    returns (r: Result<Graph, BuildError>)
    requires |depot| == 1
    requires |vehicle| == 5 ==> vehicle[4] != 0.0
    ensures |vehicle| != 5 ==> r == Err(VehicleArity(|vehicle|))
    ensures |vehicle| == 5 && !(HasFields(depot) && HasFields(stations) && HasFields(clients)) ==> r == Err(ShortRow)
    ensures |vehicle| == 5 && HasFields(depot) && HasFields(stations) && HasFields(clients) ==>
      r == Ok(GraphOf(depot, stations, clients, Unpack(vehicle).value, hypot))
  {
    var unpacked := Unpack(vehicle);
    if unpacked.None? {
      return Err(VehicleArity(|vehicle|));
    }
    var veh := unpacked.value;
    if !(HasFields(depot) && HasFields(stations) && HasFields(clients)) {
      return Err(ShortRow);
    }
    var table := new NodeTable();
    table.AppendData(depot, 1);
    table.AppendData(stations, 2);
    table.AppendData(clients, 1);
    table.AppendData(depot, 1);
    LayoutColumns(depot, stations, clients);
    var L := Layout(depot, stations, clients);
    TableColumns(table.xc, L, depot, stations, clients, 0);
    TableColumns(table.yc, L, depot, stations, clients, 1);
    TableColumns(table.q, L, depot, stations, clients, 2);
    TableColumns(table.e, L, depot, stations, clients, 3);
    TableColumns(table.l, L, depot, stations, clients, 4);
    TableColumns(table.s, L, depot, stations, clients, 5);
    var S, C := |stations|, |clients|;
    ArcsWithinNodes(S, C);
    var A := Arcs(Nodes(S, C));
    var d := Distances(A, table.xc, table.yc, hypot);
    var t := TravelTimes(A, d, veh.v);
    return Ok(Graph(table.xc, table.yc, table.q, table.e, table.l, table.s, veh, S, C, A, d, t));
  }

  // ------------------------------------------------------------------
  // Constraints as a checker
  // ------------------------------------------------------------------

  /** A candidate solution: the binary `x` on arcs and the continuous
      arrival time `tau`, load `u` and battery level `b` on nodes. */
  datatype Assignment = Assignment(x: (int, int) -> bool, tau: int -> real, u: int -> real, b: int -> real)

  /** `addVars` leaves every continuous variable with Gurobi's default
      lower bound 0. */
  predicate VarBounds(g: Graph, a: Assignment)
  {
    forall j :: j in Nodes(g.stations, g.clients) ==> a.tau(j) >= 0.0 && a.u(j) >= 0.0 && a.b(j) >= 0.0
  }

  /** c1: every client has exactly one active arc into `F ∪ V ∪ {np1}`. */
  predicate C1(g: Graph, a: Assignment)
  {
    forall i :: i in V(g.stations, g.clients) ==> OutCount(a.x, i, VLineNp1(g.stations, g.clients)) == 1
  }

  /** c2: every station copy has at most one. */
  predicate C2(g: Graph, a: Assignment)
  {
    forall i :: i in F(g.stations) ==> OutCount(a.x, i, VLineNp1(g.stations, g.clients)) <= 1
  }

  /** c3: on every station copy and client, active out-degree towards
      `F ∪ V ∪ {np1}` equals active in-degree from `{0} ∪ F ∪ V`. */
  predicate C3(g: Graph, a: Assignment)
  {
    forall j :: j in VLine(g.stations, g.clients) ==>
      OutCount(a.x, j, VLineNp1(g.stations, g.clients)) == InCount(a.x, j, VLine0(g.stations, g.clients))
  }

  /** c4 on arc (i, j): service and travel time with big-M `l[0]`. */
  predicate C4Arc(g: Graph, a: Assignment, i: int, j: int)
    requires WellFormed(g)
    requires i in V0(g.stations, g.clients) && j in VLineNp1(g.stations, g.clients) && i != j
  {
    a.tau(i) + Scale(g.t[(i, j)] + g.s[i], a.x(i, j)) - Scale(g.l[0], !a.x(i, j)) <= a.tau(j)
  }

  predicate C4(g: Graph, a: Assignment)
    requires WellFormed(g)
  {
    forall i, j :: i in V0(g.stations, g.clients) && j in VLineNp1(g.stations, g.clients) && i != j ==> C4Arc(g, a, i, j)
  }

  /** `g·(Q - b[i])`: the time to recharge at station `i` from level
      `b[i]` up to `Q`. */
  function RechargeTime(g: Graph, a: Assignment, i: int): real
  {
    g.veh.g * (g.veh.Q - a.b(i))
  }

  /** `g·Q`: the time to recharge an empty battery. */
  function FullRechargeTime(g: Graph): real
  {
    g.veh.g * g.veh.Q
  }

  /** c5 on arc (i, j) out of a station: recharge time `g·(Q - b[i])`,
      big-M `l[0] + g·Q`. */
  predicate C5Arc(g: Graph, a: Assignment, i: int, j: int)
    requires WellFormed(g)
    requires i in F(g.stations) && j in VLineNp1(g.stations, g.clients) && i != j
  {
    a.tau(i) + Scale(g.t[(i, j)], a.x(i, j)) + RechargeTime(g, a, i) - Scale(g.l[0] + FullRechargeTime(g), !a.x(i, j)) <= a.tau(j)
  }

  predicate C5(g: Graph, a: Assignment)
    requires WellFormed(g)
  {
    forall i, j :: i in F(g.stations) && j in VLineNp1(g.stations, g.clients) && i != j ==> C5Arc(g, a, i, j)
  }

  /** c6: every arrival time lies in its node's window. */
  predicate C6(g: Graph, a: Assignment)
    requires WellFormed(g)
  {
    forall j :: j in Nodes(g.stations, g.clients) ==> g.e[j] <= a.tau(j) <= g.l[j]
  }

  /** c7 on arc (i, j): load drops by `q[i]`, big-M `C`. */
  predicate C7Arc(g: Graph, a: Assignment, i: int, j: int)
    requires WellFormed(g)
    requires i in VLine0(g.stations, g.clients) && j in VLineNp1(g.stations, g.clients) && i != j
  {
    a.u(j) <= a.u(i) - Scale(g.q[i], a.x(i, j)) + Scale(g.veh.C, !a.x(i, j))
  }

  predicate C7(g: Graph, a: Assignment)
    requires WellFormed(g)
  {
    (forall j :: j in VLineNp1(g.stations, g.clients) ==> a.u(j) >= 0.0) &&
    forall i, j :: i in VLine0(g.stations, g.clients) && j in VLineNp1(g.stations, g.clients) && i != j ==> C7Arc(g, a, i, j)
  }

  /** c8: the vehicle leaves the depot with a load between 0 and `C`. */
  predicate C8(g: Graph, a: Assignment)
  {
    0.0 <= a.u(0) <= g.veh.C
  }

  /** `h·d[i, j]`: the battery energy the vehicle spends on arc (i, j). */
  function Energy(g: Graph, e: (int, int)): real
    requires e in g.d
  {
    g.veh.h * g.d[e]
  }

  /** c9 on arc (i, j) out of a client: battery drops by `h·d[i,j]`,
      big-M `Q`. */
  predicate C9Arc(g: Graph, a: Assignment, i: int, j: int)
    requires WellFormed(g)
    requires i in V(g.stations, g.clients) && j in VLineNp1(g.stations, g.clients) && i != j
  {
    a.b(j) <= a.b(i) - Scale(Energy(g, (i, j)), a.x(i, j)) + Scale(g.veh.Q, !a.x(i, j))
  }

  predicate C9(g: Graph, a: Assignment)
    requires WellFormed(g)
  {
    (forall j :: j in VLineNp1(g.stations, g.clients) ==> a.b(j) >= 0.0) &&
    forall i, j :: i in V(g.stations, g.clients) && j in VLineNp1(g.stations, g.clients) && i != j ==> C9Arc(g, a, i, j)
  }

  /** c10 on arc (i, j) out of the depot or a station: the battery is full
      on leaving, so it arrives with at most `Q - h·d[i,j]`. */
  predicate C10Arc(g: Graph, a: Assignment, i: int, j: int)
    requires WellFormed(g)
    requires i in F0(g.stations) && j in VLineNp1(g.stations, g.clients) && i != j
  {
    a.b(j) <= g.veh.Q - Scale(Energy(g, (i, j)), a.x(i, j))
  }

  predicate C10(g: Graph, a: Assignment)
    requires WellFormed(g)
  {
    (forall j :: j in VLineNp1(g.stations, g.clients) ==> a.b(j) >= 0.0) &&
    forall i, j :: i in F0(g.stations) && j in VLineNp1(g.stations, g.clients) && i != j ==> C10Arc(g, a, i, j)
  }

  /** Every constraint family of the model. */
  predicate Feasible(g: Graph, a: Assignment)
    requires WellFormed(g)
  {
    VarBounds(g, a) && C1(g, a) && C2(g, a) && C3(g, a) && C4(g, a) && C5(g, a) &&
    C6(g, a) && C7(g, a) && C8(g, a) && C9(g, a) && C10(g, a)
  }

  // ------------------------------------------------------------------
  // Objective
  // ------------------------------------------------------------------

  /** The objective's index domain: sources in `{0} ∪ F ∪ V`, targets in
      `F ∪ V ∪ {np1}`, distinct. */
  function ObjectiveArcs(S: nat, C: nat): seq<(int, int)>
  {
    Pairs(VLine0(S, C), VLineNp1(S, C))
  }

  /** The objective ranges over the arcs that neither enter the start depot
      nor leave the end depot; the direct arc (0, np1) is among them. */
  lemma ObjectiveDomain(S: nat, C: nat)
    ensures forall e {:trigger e in ObjectiveArcs(S, C)} :: e in ObjectiveArcs(S, C) <==>
      e.0 in Nodes(S, C) && e.1 in Nodes(S, C) && e.0 != e.1 && e.1 != 0 && e.0 != Np1(S, C)
    ensures (0, Np1(S, C)) in ObjectiveArcs(S, C)
  {
    forall e ensures e in ObjectiveArcs(S, C) <==>
      e.0 in Nodes(S, C) && e.1 in Nodes(S, C) && e.0 != e.1 && e.1 != 0 && e.0 != Np1(S, C)
    {
      PairsMembership(VLine0(S, C), VLineNp1(S, C), e);
      NodeMembership(S, C, e.0);
      NodeMembership(S, C, e.1);
    }
    PairsMembership(VLine0(S, C), VLineNp1(S, C), (0, Np1(S, C)));
  }

  /** `quicksum(d[i, j] * x[i, j] ...)`: total distance of the chosen arcs. */
  function Objective(g: Graph, a: Assignment): real
    requires WellFormed(g)
  {
    ObjectiveDomain(g.stations, g.clients);
    WeightedSum(ObjectiveArcs(g.stations, g.clients), g.d, a.x)
  }

  /** The objective is the summed length of the active arcs of its domain,
      and is non-negative when distances are. */
  lemma ObjectiveIsRouteLength(g: Graph, a: Assignment)
    requires WellFormed(g)
    ensures forall e :: e in ObjectiveArcs(g.stations, g.clients) ==> e in g.d
    ensures Objective(g, a) == Total(ActiveArcs(ObjectiveArcs(g.stations, g.clients), a.x), g.d)
    ensures (forall e :: e in g.d ==> g.d[e] >= 0.0) ==> Objective(g, a) >= 0.0
  {
    ObjectiveDomain(g.stations, g.clients);
    var arcs := ObjectiveArcs(g.stations, g.clients);
    WeightedSumIsActiveTotal(arcs, g.d, a.x);
    if forall e :: e in g.d ==> g.d[e] >= 0.0 {
      TotalNonNegative(ActiveArcs(arcs, a.x), g.d);
    }
  }

  // ------------------------------------------------------------------
  // What each big-M constraint says on a used and on an unused arc
  // ------------------------------------------------------------------

  lemma C4Cases(g: Graph, a: Assignment, i: int, j: int)
    requires WellFormed(g)
    requires i in V0(g.stations, g.clients) && j in VLineNp1(g.stations, g.clients) && i != j
    ensures C4Arc(g, a, i, j) <==>
      if a.x(i, j) then a.tau(j) >= a.tau(i) + g.t[(i, j)] + g.s[i] else a.tau(j) >= a.tau(i) - g.l[0]
  {
  }

  lemma C5Cases(g: Graph, a: Assignment, i: int, j: int)
    requires WellFormed(g)
    requires i in F(g.stations) && j in VLineNp1(g.stations, g.clients) && i != j
    ensures C5Arc(g, a, i, j) <==>
      if a.x(i, j) then a.tau(j) >= a.tau(i) + g.t[(i, j)] + RechargeTime(g, a, i)
      else a.tau(j) >= a.tau(i) + RechargeTime(g, a, i) - (g.l[0] + FullRechargeTime(g))
  {
  }

  lemma C7Cases(g: Graph, a: Assignment, i: int, j: int)
    requires WellFormed(g)
    requires i in VLine0(g.stations, g.clients) && j in VLineNp1(g.stations, g.clients) && i != j
    ensures C7Arc(g, a, i, j) <==>
      if a.x(i, j) then a.u(j) <= a.u(i) - g.q[i] else a.u(j) <= a.u(i) + g.veh.C
  {
  }

  lemma C9Cases(g: Graph, a: Assignment, i: int, j: int)
    requires WellFormed(g)
    requires i in V(g.stations, g.clients) && j in VLineNp1(g.stations, g.clients) && i != j
    ensures C9Arc(g, a, i, j) <==>
      if a.x(i, j) then a.b(j) <= a.b(i) - Energy(g, (i, j)) else a.b(j) <= a.b(i) + g.veh.Q
  {
  }

  lemma C10Cases(g: Graph, a: Assignment, i: int, j: int)
    requires WellFormed(g)
    requires i in F0(g.stations) && j in VLineNp1(g.stations, g.clients) && i != j
    ensures C10Arc(g, a, i, j) <==>
      if a.x(i, j) then a.b(j) <= g.veh.Q - Energy(g, (i, j)) else a.b(j) <= g.veh.Q
  {
  }

  // ------------------------------------------------------------------
  // Consequences of feasibility
  // ------------------------------------------------------------------

  /** Every client is entered exactly once, and as many vehicles leave the
      start depot as reach the end depot. */
  lemma DegreeBalance(g: Graph, a: Assignment)
    requires WellFormed(g) && C1(g, a) && C3(g, a)
    ensures forall j :: j in V(g.stations, g.clients) ==> InCount(a.x, j, VLine0(g.stations, g.clients)) == 1
    ensures OutCount(a.x, 0, VLineNp1(g.stations, g.clients)) == InCount(a.x, Np1(g.stations, g.clients), VLine0(g.stations, g.clients))
  {
    var S, C := g.stations, g.clients;
    FlowBalance(a.x, 0, VLine(S, C), Np1(S, C));
  }

  /** c2 with c3: every station copy is entered at most once. */
  lemma StationVisits(g: Graph, a: Assignment)
    requires WellFormed(g) && C2(g, a) && C3(g, a)
    ensures forall j :: j in F(g.stations) ==> InCount(a.x, j, VLine0(g.stations, g.clients)) <= 1
  {
    forall j | j in F(g.stations) ensures InCount(a.x, j, VLine0(g.stations, g.clients)) <= 1 {
      assert j in VLine(g.stations, g.clients);
    }
  }

  /** Step `k` of a walk is an active arc of c7's domain. */
  predicate LoadStep(g: Graph, a: Assignment, p: seq<int>, k: int)
    requires 0 <= k < |p| - 1
  {
    p[k] in VLine0(g.stations, g.clients) && p[k + 1] in VLineNp1(g.stations, g.clients) &&
    p[k] != p[k + 1] && a.x(p[k], p[k + 1])
  }

  /** A walk from the start depot along active arcs of c7's domain. */
  predicate LoadPath(g: Graph, a: Assignment, p: seq<int>)
  {
    |p| >= 1 && p[0] == 0 && forall k :: 0 <= k < |p| - 1 ==> LoadStep(g, a, p, k)
  }

  /** The demands of the nodes a walk leaves, in order. */
  function Demands(q: seq<real>, p: seq<int>): (r: seq<real>)
    requires |p| >= 1 && forall k :: 0 <= k < |p| - 1 ==> 0 <= p[k] < |q|
    ensures |r| == |p| - 1
  {
    seq(|p| - 1, k requires 0 <= k < |p| - 1 => q[p[k]])
  }

  /** Along any walk of active arcs from the depot, the summed demand of the
      nodes left behind never exceeds the load capacity `C`. */
  lemma LoadChain(g: Graph, a: Assignment, p: seq<int>)
    requires WellFormed(g) && C7(g, a) && C8(g, a) && LoadPath(g, a, p)
    ensures forall k :: 0 <= k < |p| - 1 ==> 0 <= p[k] < |g.q|
    ensures Sum(Demands(g.q, p)) <= g.veh.C
  {
    var S, C := g.stations, g.clients;
    forall k | 0 <= k < |p| - 1 ensures 0 <= p[k] < |g.q| {
      assert LoadStep(g, a, p, k);
    }
    var cost := Demands(g.q, p);
    forall k | 0 <= k < |cost| ensures a.u(p[k + 1]) <= a.u(p[k]) - cost[k] {
      assert LoadStep(g, a, p, k);
      assert C7Arc(g, a, p[k], p[k + 1]);
    }
    Descent(a.u, p, cost);
    if |p| > 1 {
      assert LoadStep(g, a, p, |p| - 2);
    }
  }

  /** Step `k` of a walk is an active arc whose source is the depot or a
      station for the first step and a client for the others. */
  predicate ChargeStep(g: Graph, a: Assignment, p: seq<int>, k: int)
    requires 0 <= k < |p| - 1
  {
    (if k == 0 then p[k] in F0(g.stations) else p[k] in V(g.stations, g.clients)) &&
    p[k + 1] in VLineNp1(g.stations, g.clients) && p[k] != p[k + 1] && a.x(p[k], p[k + 1])
  }

  /** A walk that leaves the depot or a station, passes through clients
      only, and ends anywhere in `F ∪ V ∪ {np1}`, all on active arcs. */
  predicate ChargePath(g: Graph, a: Assignment, p: seq<int>)
  {
    |p| >= 2 && forall k :: 0 <= k < |p| - 1 ==> ChargeStep(g, a, p, k)
  }

  /** The energy `h·d` spent on each arc of a walk. */
  function Consumption(g: Graph, p: seq<int>): (r: seq<real>)
    requires |p| >= 1 && forall k :: 0 <= k < |p| - 1 ==> Hop(p, k) in g.d
    ensures |r| == |p| - 1
    ensures forall k :: 0 <= k < |r| ==> r[k] == Energy(g, Hop(p, k))
  {
    seq(|p| - 1, k requires 0 <= k < |p| - 1 => Energy(g, Hop(p, k)))
  }

  /** The first step of such a walk leaves with a full battery (c10). */
  lemma ChargeFirst(g: Graph, a: Assignment, p: seq<int>)
    requires WellFormed(g) && C10(g, a) && ChargePath(g, a, p)
    ensures Hop(p, 0) in g.d && a.b(p[1]) <= g.veh.Q - Energy(g, Hop(p, 0))
  {
    assert ChargeStep(g, a, p, 0);
    C10Cases(g, a, p[0], p[1]);
    assert C10Arc(g, a, p[0], p[1]);
  }

  /** Each later step leaves a client and spends `h·d` (c9). */
  lemma ChargeLater(g: Graph, a: Assignment, p: seq<int>, k: int)
    requires WellFormed(g) && C9(g, a) && ChargePath(g, a, p) && 1 <= k < |p| - 1
    ensures Hop(p, k) in g.d && a.b(p[k + 1]) <= a.b(p[k]) - Energy(g, Hop(p, k))
  {
    assert ChargeStep(g, a, p, k);
    C9Cases(g, a, p[k], p[k + 1]);
    assert C9Arc(g, a, p[k], p[k + 1]);
  }

  /** After the first step the battery drops by at least the energy of
      each further arc (c9 chained along the clients). */
  lemma ChargeTail(g: Graph, a: Assignment, p: seq<int>)
    requires WellFormed(g) && C9(g, a) && ChargePath(g, a, p)
    ensures forall k :: 0 <= k < |p| - 1 ==> Hop(p, k) in g.d
    ensures 0.0 <= a.b(p[|p| - 1]) <= a.b(p[1]) - Sum(Consumption(g, p)[1..])
  {
    assert ChargeStep(g, a, p, |p| - 2);
    forall k | 0 <= k < |p| - 1 ensures Hop(p, k) in g.d {
      assert ChargeStep(g, a, p, k);
    }
    var rest, tail := p[1..], Consumption(g, p)[1..];
    forall k | 0 <= k < |tail| ensures a.b(rest[k + 1]) <= a.b(rest[k]) - tail[k] {
      assert rest[k] == p[k + 1] && rest[k + 1] == p[k + 2];
      assert tail[k] == Consumption(g, p)[k + 1] == Energy(g, Hop(p, k + 1));
      ChargeLater(g, a, p, k + 1);
    }
    Descent(a.b, rest, tail);
  }

  /** Between two charges the energy spent never exceeds the battery
      capacity `Q`. */
  lemma ChargeChain(g: Graph, a: Assignment, p: seq<int>)
    requires WellFormed(g) && C9(g, a) && C10(g, a) && ChargePath(g, a, p)
    ensures forall k :: 0 <= k < |p| - 1 ==> Hop(p, k) in g.d
    ensures Sum(Consumption(g, p)) <= g.veh.Q
  {
    ChargeTail(g, a, p);
    ChargeFirst(g, a, p);
    SumFirst(Consumption(g, p));
  }

  // ------------------------------------------------------------------
  // Arrival times along a route
  // ------------------------------------------------------------------

  /** A walk from the depot, a station copy or a client along active arcs
      of the domain of c4 and c5 together. */
  predicate TravelPath(g: Graph, a: Assignment, p: seq<int>)
  {
    |p| >= 1 && p[0] in VLine0(g.stations, g.clients) && forall k :: 0 <= k < |p| - 1 ==> LoadStep(g, a, p, k)
  }

  /** The time spent at node `i` before leaving it: recharging at a station
      copy (c5), service anywhere else (c4). */
  function Dwell(g: Graph, a: Assignment, i: int): real
    requires 0 <= i < |g.s|
  {
    if i in F(g.stations) then RechargeTime(g, a, i) else g.s[i]
  }

  /** Travel time plus the time spent at the node left, for each step. */
  function StepTimes(g: Graph, a: Assignment, p: seq<int>): seq<real>
    requires |p| >= 1 && forall k :: 0 <= k < |p| - 1 ==> Hop(p, k) in g.t && 0 <= p[k] < |g.s|
  {
    seq(|p| - 1, k requires 0 <= k < |p| - 1 => g.t[Hop(p, k)] + Dwell(g, a, p[k]))
  }

  /** A walk's nodes are valid array indices, and its steps are arcs. */
  lemma TravelIndices(g: Graph, a: Assignment, p: seq<int>)
    requires WellFormed(g) && TravelPath(g, a, p)
    ensures forall k :: 0 <= k < |p| ==> 0 <= p[k] < |g.q| && p[k] in Nodes(g.stations, g.clients)
    ensures forall k :: 0 <= k < |p| - 1 ==> Hop(p, k) in g.t
  {
    var S, C := g.stations, g.clients;
    forall k | 0 <= k < |p| ensures 0 <= p[k] < |g.q| && p[k] in Nodes(S, C) {
      if k > 0 {
        assert LoadStep(g, a, p, k - 1);
      }
      NodeMembership(S, C, p[k]);
    }
    forall k | 0 <= k < |p| - 1 ensures Hop(p, k) in g.t {
      assert LoadStep(g, a, p, k);
    }
  }

  /** Each step delays the arrival by the travel time plus the time spent
      at the node left: c4 on a used arc out of the depot or a client, c5
      on a used arc out of a station copy. */
  lemma TimeStep(g: Graph, a: Assignment, p: seq<int>, k: int)
    requires WellFormed(g) && C4(g, a) && C5(g, a) && TravelPath(g, a, p) && 0 <= k < |p| - 1
    ensures 0 <= p[k] < |g.s| && Hop(p, k) in g.t
    ensures a.tau(p[k + 1]) >= a.tau(p[k]) + g.t[Hop(p, k)] + Dwell(g, a, p[k])
  {
    var S, C := g.stations, g.clients;
    assert LoadStep(g, a, p, k);
    NodeMembership(S, C, p[k]);
    NodeMembership(S, C, p[k + 1]);
    if p[k] in F(S) {
      C5Cases(g, a, p[k], p[k + 1]);
      assert C5Arc(g, a, p[k], p[k + 1]);
    } else {
      assert p[k] in V0(S, C);
      C4Cases(g, a, p[k], p[k + 1]);
      assert C4Arc(g, a, p[k], p[k + 1]);
    }
  }

  /** Two windows linked by an arrival-time gap (c6): the first opening
      plus the gap fits before the second closing. */
  lemma WindowsFit(g: Graph, a: Assignment, i: int, j: int, gap: real)
    requires WellFormed(g) && C6(g, a)
    requires i in Nodes(g.stations, g.clients) && j in Nodes(g.stations, g.clients)
    requires a.tau(j) >= a.tau(i) + gap
    ensures g.e[i] + gap <= g.l[j]
  {
  }

  /** Along any walk of active arcs, arrival at its end is no earlier than
      arrival at its start plus every travel, service and recharge time on
      the way; so those times fit between the start's window opening and
      the end's window closing. */
  lemma TimeChain(g: Graph, a: Assignment, p: seq<int>)
    requires WellFormed(g) && C4(g, a) && C5(g, a) && C6(g, a) && TravelPath(g, a, p)
    ensures forall k :: 0 <= k < |p| ==> 0 <= p[k] < |g.q|
    ensures forall k :: 0 <= k < |p| - 1 ==> Hop(p, k) in g.t
    ensures a.tau(p[|p| - 1]) >= a.tau(p[0]) + Sum(StepTimes(g, a, p))
    ensures g.e[p[0]] + Sum(StepTimes(g, a, p)) <= g.l[p[|p| - 1]]
  {
    TravelIndices(g, a, p);
    var cost := StepTimes(g, a, p);
    var late := (k: int) => -a.tau(k);
    forall k | 0 <= k < |cost| ensures late(p[k + 1]) <= late(p[k]) - cost[k] {
      TimeStep(g, a, p, k);
    }
    Descent(late, p, cost);
    WindowsFit(g, a, p[0], p[|p| - 1], Sum(cost));
  }
}
