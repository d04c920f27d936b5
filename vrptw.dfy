/**
 * The VRPTW formulation of VRPTW/vrptw.py without the solver: the node
 * arrays the three `append_data` calls lay out with the speed fixed at
 * 52.5, the index partitions and the arc list, the distance and
 * travel-time maps, constraint families eq 2-9 with the objective read as
 * a checker over a candidate assignment, and the decoder that turns a
 * solver's variable values into the two reported metrics.
 */
module Vrptw {
  import opened Results
  import opened IndexSpace
  import opened Vehicles
  import opened ReadData
  import Evrptw

  // ------------------------------------------------------------------
  // Index partitions (C client rows, one depot row)
  // ------------------------------------------------------------------

  /** The end-depot index `num_clients + 1`. */
  function Np1(C: nat): nat
  {
    C + 1
  }

  /** `V`: the clients. */
  function V(C: nat): seq<int>
  {
    Range(1, C + 1)
  }

  function V0(C: nat): seq<int> { [0] + V(C) }
  function VLineNp1(C: nat): seq<int> { V(C) + [Np1(C)] }

  /** `V_line_0_np1 = depot_0 + V + depot_np1`. */
  function Nodes(C: nat): seq<int>
  {
    [0] + V(C) + [Np1(C)]
  }

  /** The node list is `0 .. C+1` in order, without repetition, and the
      three parts have sizes 1, C and 1; so they are pairwise disjoint and
      cover the index space. */
  lemma NodesLayout(C: nat)
    ensures Nodes(C) == Range(0, Np1(C) + 1)
    ensures Distinct(Nodes(C))
    ensures |V(C)| == C && |Nodes(C)| == C + 2
  {
    RangeSplit(0, 1, C + 1);
    RangeSplit(0, C + 1, C + 2);
  }

  /** Which part of the partition an index falls in. */
  lemma NodeMembership(C: nat, i: int)
    ensures i in Nodes(C) <==> 0 <= i <= Np1(C)
    ensures i in V(C) <==> 1 <= i <= C
  {
    NodesLayout(C);
    InRange(0, Np1(C) + 1, i);
    InRange(1, C + 1, i);
  }

  /** The VRPTW index space is the EVRPTW one without recharge stations. */
  lemma NoStations(C: nat)
    ensures Nodes(C) == Evrptw.Nodes(0, C) && V(C) == Evrptw.V(0, C) && Np1(C) == Evrptw.Np1(0, C)
    ensures V0(C) == Evrptw.V0(0, C) && VLineNp1(C) == Evrptw.VLineNp1(0, C)
  {
    NoStationCopies(C);
    assert Evrptw.VLine(0, C) == V(C);
    assert [0] + Evrptw.F(0) == [0];
  }

  lemma NoStationCopies(C: nat)
    ensures Evrptw.F(0) == [] && Evrptw.V(0, C) == V(C) && Evrptw.Np1(0, C) == Np1(C)
  {
  }

  /** `A` has every ordered pair of distinct nodes. */
  lemma ArcSet(C: nat)
    ensures forall e {:trigger e in Arcs(Nodes(C))} :: e in Arcs(Nodes(C)) <==> 0 <= e.0 <= Np1(C) && 0 <= e.1 <= Np1(C) && e.0 != e.1
  {
    ArcsMembership(Nodes(C));
    forall i ensures i in Nodes(C) <==> 0 <= i <= Np1(C) {
      NodeMembership(C, i);
    }
  }

  /** `A` has N(N-1) arcs for the N = C+2 nodes. */
  lemma ArcCount(C: nat)
    ensures |Arcs(Nodes(C))| == (C + 2) * (C + 1)
  {
    NodesLayout(C);
    ArcsLength(Nodes(C));
  }

  /** Every arc joins two valid array indices. */
  lemma ArcsWithinNodes(C: nat)
    ensures ArcsWithin(Arcs(Nodes(C)), Np1(C) + 1)
  {
    ArcSet(C);
  }

  // ------------------------------------------------------------------
  // Node arrays
  // ------------------------------------------------------------------

  /** The rows the three `append_data` calls lay out: the depot, the
      clients, the depot again. */
  function Layout(depot: seq<Row>, clients: seq<Row>): seq<Row>
  {
    depot + clients + depot
  }

  /** Node `i` is the depot at both ends and client `i-1` in between. */
  lemma LayoutAt(depot: seq<Row>, clients: seq<Row>, i: int)
    requires |depot| == 1 && 0 <= i <= Np1(|clients|)
    ensures |Layout(depot, clients)| == Np1(|clients|) + 1
    ensures Layout(depot, clients)[i] ==
      if i == 0 || i == Np1(|clients|) then depot[0] else clients[i - 1]
  {
  }

  /** The layout is the EVRPTW one with no recharge stations. */
  lemma LayoutWithoutStations(depot: seq<Row>, clients: seq<Row>)
    ensures Layout(depot, clients) == Evrptw.Layout(depot, [], clients)
  {
    assert Passes([], 1) == [];
    assert Passes([], 2) == [];
    assert depot + [] == depot;
  }

  /** The six columns of the layout split along its three parts. */
  lemma LayoutColumns(depot: seq<Row>, clients: seq<Row>)
    requires HasFields(depot) && HasFields(clients)
    ensures HasFields(Layout(depot, clients))
    ensures forall k :: 0 <= k < RowFields ==>
      Column(Layout(depot, clients), k) ==
        Column(Passes(depot, 1), k) + Column(Passes(clients, 1), k) + Column(Passes(depot, 1), k)
  {
    assert Passes(depot, 1) == depot;
    assert Passes(clients, 1) == clients;
    ColumnsAppend(depot, clients);
    ColumnsAppend(depot + clients, depot);
  }

  /** A list filled by the three `append_data` calls is column `k` of the
      layout. */
  lemma TableColumns(c: seq<real>, L: seq<Row>, depot: seq<Row>, clients: seq<Row>, k: nat)
    requires HasFields(depot) && HasFields(clients) && k < RowFields
    requires L == Layout(depot, clients)
    requires c == [] + Column(Passes(depot, 1), k) + Column(Passes(clients, 1), k) + Column(Passes(depot, 1), k)
    ensures HasFields(L) && c == Column(L, k)
  {
    LayoutColumns(depot, clients);
    assert [] + Column(Passes(depot, 1), k) == Column(Passes(depot, 1), k);
  }

  // ------------------------------------------------------------------
  // The graph handed to the solver
  // ------------------------------------------------------------------

  /** The average speed `solver` uses, in place of the vehicle's own. */
  const Speed: real := 52.5

  /** Node arrays, vehicle, number of clients, arc list and the `d` and
      `t` maps over it. */
  datatype Graph = Graph(
    xc: seq<real>, yc: seq<real>, q: seq<real>, e: seq<real>, l: seq<real>, s: seq<real>,
    veh: Vehicle, clients: nat,
    A: seq<(int, int)>, d: map<(int, int), real>, t: map<(int, int), real>)

  /** Arrays of length C+2, and `d` and `t` defined on exactly the pairs
      of distinct nodes. */
  ghost predicate WellFormed(g: Graph)
  {
    var n := g.clients + 2;
    var N := Nodes(g.clients);
    |g.xc| == n && |g.yc| == n && |g.q| == n && |g.e| == n && |g.l| == n && |g.s| == n &&
    (forall i :: i in N ==> 0 <= i < n) &&
    (forall e {:trigger e in g.d} :: e in g.d <==> e.0 in N && e.1 in N && e.0 != e.1) &&
    (forall a :: a in g.t <==> a in g.d)
  }

  /** `A` lists every ordered pair of distinct nodes. */
  ghost predicate ArcList(g: Graph)
  {
    g.A == Arcs(Nodes(g.clients))
  }

  /** The speed is 52.5 and `t[i, j] = d[i, j] / 52.5` on every arc. */
  ghost predicate TravelAtSpeed(g: Graph)
  {
    g.veh.v == Speed && forall a :: a in g.t && a in g.d ==> g.t[a] == g.d[a] / Speed
  }

  /** `d[i, j] = hypot(x_c[i] - x_c[j], y_c[i] - y_c[j])` on every arc. */
  ghost predicate MeasuredBy(g: Graph, hypot: (real, real) -> real)
  {
    |g.yc| == |g.xc| &&
    forall e {:trigger e in g.d} :: e in g.d ==>
      0 <= e.0 < |g.xc| && 0 <= e.1 < |g.xc| &&
      g.d[e] == hypot(g.xc[e.0] - g.xc[e.1], g.yc[e.0] - g.yc[e.1])
  }

  /** The graph `solver` builds for a depot and client rows and an
      unpacked vehicle, whose speed it replaces by 52.5; `hypot` stands
      for `np.hypot`. */
  function GraphOf(depot: seq<Row>, clients: seq<Row>, veh: Vehicle, hypot: (real, real) -> real): (g: Graph)
    requires |depot| == 1 && HasFields(depot) && HasFields(clients)
    ensures g.clients == |clients|
    ensures |g.xc| == |g.yc| == |g.q| == |g.e| == |g.l| == |g.s| == Np1(|clients|) + 1
  {
    LayoutColumns(depot, clients);
    ArcsWithinNodes(|clients|);
    var L := Layout(depot, clients);
    var A := Arcs(Nodes(|clients|));
    var d := Distances(A, Column(L, 0), Column(L, 1), hypot);
    Graph(Column(L, 0), Column(L, 1), Column(L, 2), Column(L, 3), Column(L, 4), Column(L, 5),
      veh.(v := Speed), |clients|, A, d, TravelTimes(A, d, Speed))
  }

  /** The graph `solver` builds has the shape the constraints are stated
      over, travels at 52.5 whatever speed the vehicle record gives, and
      keeps the record's other four values. */
  lemma GraphOfWellFormed(depot: seq<Row>, clients: seq<Row>, veh: Vehicle, hypot: (real, real) -> real)
    requires |depot| == 1 && HasFields(depot) && HasFields(clients)
    ensures WellFormed(GraphOf(depot, clients, veh, hypot))
    ensures TravelAtSpeed(GraphOf(depot, clients, veh, hypot))
    ensures ArcList(GraphOf(depot, clients, veh, hypot))
    ensures Fields(GraphOf(depot, clients, veh, hypot).veh)[..4] == Fields(veh)[..4]
    ensures MeasuredBy(GraphOf(depot, clients, veh, hypot), hypot)
  {
    GraphMeasured(depot, clients, veh, hypot);
    var C := |clients|;
    var N := Nodes(C);
    forall i | i in N ensures 0 <= i < Np1(C) + 1 {
      NodeMembership(C, i);
    }
    ArcsMembership(N);
  }

  /** Every entry of `d` is `hypot` of its endpoints' coordinate
      differences. */
  lemma GraphMeasured(depot: seq<Row>, clients: seq<Row>, veh: Vehicle, hypot: (real, real) -> real)
    requires |depot| == 1 && HasFields(depot) && HasFields(clients)
    ensures MeasuredBy(GraphOf(depot, clients, veh, hypot), hypot)
  {
    var g := GraphOf(depot, clients, veh, hypot);
    ArcsWithinNodes(|clients|);
    assert ArcsWithin(g.A, |g.xc|) && g.d == Distances(g.A, g.xc, g.yc, hypot);
    DistancesMeasure(g, hypot);
  }

  /** A graph whose `d` is the distance map over its own arcs and
      coordinates is measured by `hypot`. */
  lemma DistancesMeasure(g: Graph, hypot: (real, real) -> real)
    requires |g.xc| == |g.yc| && ArcsWithin(g.A, |g.xc|)
    requires g.d == Distances(g.A, g.xc, g.yc, hypot)
    ensures MeasuredBy(g, hypot)
  {
    DistanceOf(g.A, g.xc, g.yc, hypot);
  }

  /** The six fields of node `i`. */
  function NodeFields(g: Graph, i: int): Row
    requires |g.xc| == |g.yc| == |g.q| == |g.e| == |g.l| == |g.s| && 0 <= i < |g.xc|
  {
    [g.xc[i], g.yc[i], g.q[i], g.e[i], g.l[i], g.s[i]]
  }

  /** Node `i` holds the first six fields of the depot row at both ends
      and of client row `i-1` in between. */
  lemma NodeData(depot: seq<Row>, clients: seq<Row>, veh: Vehicle, hypot: (real, real) -> real, i: int)
    requires |depot| == 1 && HasFields(depot) && HasFields(clients)
    requires 0 <= i <= Np1(|clients|)
    ensures NodeFields(GraphOf(depot, clients, veh, hypot), i) ==
      (if i == 0 || i == Np1(|clients|) then depot[0] else clients[i - 1])[..RowFields]
  {
    var L := Layout(depot, clients);
    LayoutColumns(depot, clients);
    LayoutAt(depot, clients, i);
    ColumnsRow(L, i);
  }

  /** The two ways building the graph can fail before any constraint is
      added: the vehicle list does not unpack into five values, or a node
      row has fewer than six fields (an `IndexError` in `append_data`). */
  datatype BuildError = VehicleArity(found: nat) | ShortRow

  /** Lines 6-27 of `solver`: unpack the vehicle, override its speed,
      append the depot, the clients and the depot again into six arrays,
      then build the partitions, `A`, `d` and `t`. */
  method BuildGraph(depot: seq<Row>, clients: seq<Row>, vehicle: seq<real>, hypot: (real, real) -> real)
    returns (r: Result<Graph, BuildError>)
    requires |depot| == 1
    ensures |vehicle| != 5 ==> r == Err(VehicleArity(|vehicle|))
    ensures |vehicle| == 5 && !(HasFields(depot) && HasFields(clients)) ==> r == Err(ShortRow)
    ensures |vehicle| == 5 && HasFields(depot) && HasFields(clients) ==>
      r == Ok(GraphOf(depot, clients, Unpack(vehicle).value, hypot))
  {
    var unpacked := Unpack(vehicle);
    if unpacked.None? {
      return Err(VehicleArity(|vehicle|));
    }
    var veh := unpacked.value.(v := Speed);
    if !(HasFields(depot) && HasFields(clients)) {
      return Err(ShortRow);
    }
    var table := new NodeTable();
    table.AppendData(depot, 1);
    table.AppendData(clients, 1);
    table.AppendData(depot, 1);
    var L := Layout(depot, clients);
    TableColumns(table.xc, L, depot, clients, 0);
    TableColumns(table.yc, L, depot, clients, 1);
    TableColumns(table.q, L, depot, clients, 2);
    TableColumns(table.e, L, depot, clients, 3);
    TableColumns(table.l, L, depot, clients, 4);
    TableColumns(table.s, L, depot, clients, 5);
    var C := |clients|;
    ArcsWithinNodes(C);
    var A := Arcs(Nodes(C));
    var d := Distances(A, table.xc, table.yc, hypot);
    var t := TravelTimes(A, d, veh.v);
    return Ok(Graph(table.xc, table.yc, table.q, table.e, table.l, table.s, veh, C, A, d, t));
  }

  // ------------------------------------------------------------------
  // Constraints as a checker
  // ------------------------------------------------------------------

  /** A candidate solution: the binary `x` on arcs and the continuous
      arrival time `tau` and load `u` on nodes. */
  datatype Assignment = Assignment(x: (int, int) -> bool, tau: int -> real, u: int -> real)

  /** `addVars` leaves every continuous variable with Gurobi's default
      lower bound 0. */
  predicate VarBounds(g: Graph, a: Assignment)
  {
    forall j :: j in Nodes(g.clients) ==> a.tau(j) >= 0.0 && a.u(j) >= 0.0
  }

  /** eq 2: every client has exactly one active arc into `V ∪ {np1}`. */
  predicate Eq2(g: Graph, a: Assignment)
  {
    forall i :: i in V(g.clients) ==> OutCount(a.x, i, VLineNp1(g.clients)) == 1
  }

  /** eq 4: on every client, active out-degree towards `V ∪ {np1}` equals
      active in-degree from `{0} ∪ V`. */
  predicate Eq4(g: Graph, a: Assignment)
  {
    forall j :: j in V(g.clients) ==> OutCount(a.x, j, VLineNp1(g.clients)) == InCount(a.x, j, V0(g.clients))
  }

  /** eq 5 on arc (i, j): service and travel time with big-M `l[0]`. */
  predicate Eq5Arc(g: Graph, a: Assignment, i: int, j: int)
    requires WellFormed(g)
    requires i in V0(g.clients) && j in VLineNp1(g.clients) && i != j
  {
    a.tau(i) + Scale(g.t[(i, j)] + g.s[i], a.x(i, j)) - Scale(g.l[0], !a.x(i, j)) <= a.tau(j)
  }

  predicate Eq5(g: Graph, a: Assignment)
    requires WellFormed(g)
  {
    forall i, j :: i in V0(g.clients) && j in VLineNp1(g.clients) && i != j ==> Eq5Arc(g, a, i, j)
  }

  /** eq 7: every arrival time lies in its node's window. */
  predicate Eq7(g: Graph, a: Assignment)
    requires WellFormed(g)
  {
    forall j :: j in Nodes(g.clients) ==> g.e[j] <= a.tau(j) <= g.l[j]
  }

  /** eq 8 on arc (i, j): load drops by `q[i]`, big-M `C`. */
  predicate Eq8Arc(g: Graph, a: Assignment, i: int, j: int)
    requires WellFormed(g)
    requires i in V0(g.clients) && j in VLineNp1(g.clients) && i != j
  {
    a.u(j) <= a.u(i) - Scale(g.q[i], a.x(i, j)) + Scale(g.veh.C, !a.x(i, j))
  }

  predicate Eq8(g: Graph, a: Assignment)
    requires WellFormed(g)
  {
    (forall j :: j in VLineNp1(g.clients) ==> a.u(j) >= 0.0) &&
    forall i, j :: i in V0(g.clients) && j in VLineNp1(g.clients) && i != j ==> Eq8Arc(g, a, i, j)
  }

  /** eq 9: the vehicle leaves the depot with a load between 0 and `C`. */
  predicate Eq9(g: Graph, a: Assignment)
  {
    0.0 <= a.u(0) <= g.veh.C
  }

  /** Every constraint family of the model. */
  predicate Feasible(g: Graph, a: Assignment)
    requires WellFormed(g)
  {
    VarBounds(g, a) && Eq2(g, a) && Eq4(g, a) && Eq5(g, a) && Eq7(g, a) && Eq8(g, a) && Eq9(g, a)
  }

  // ------------------------------------------------------------------
  // Objective
  // ------------------------------------------------------------------

  /** The objective's index domain: sources in `{0} ∪ V`, targets in
      `V ∪ {np1}`, distinct. */
  function ObjectiveArcs(C: nat): seq<(int, int)>
  {
    Pairs(V0(C), VLineNp1(C))
  }

  /** The objective ranges over the arcs that neither enter the start depot
      nor leave the end depot; the direct arc (0, np1) is among them. */
  lemma ObjectiveDomain(C: nat)
    ensures forall e {:trigger e in ObjectiveArcs(C)} :: e in ObjectiveArcs(C) <==>
      e.0 in Nodes(C) && e.1 in Nodes(C) && e.0 != e.1 && e.1 != 0 && e.0 != Np1(C)
    ensures (0, Np1(C)) in ObjectiveArcs(C)
  {
    forall e ensures e in ObjectiveArcs(C) <==>
      e.0 in Nodes(C) && e.1 in Nodes(C) && e.0 != e.1 && e.1 != 0 && e.0 != Np1(C)
    {
      PairsMembership(V0(C), VLineNp1(C), e);
      NodeMembership(C, e.0);
      NodeMembership(C, e.1);
    }
    PairsMembership(V0(C), VLineNp1(C), (0, Np1(C)));
  }

  /** `quicksum(d[i, j] * x[i, j] ...)`: total distance of the chosen arcs. */
  function Objective(g: Graph, a: Assignment): real
    requires WellFormed(g)
  {
    ObjectiveDomain(g.clients);
    WeightedSum(ObjectiveArcs(g.clients), g.d, a.x)
  }

  /** The objective is the summed length of the active arcs of its domain,
      and is non-negative when distances are. */
  lemma ObjectiveIsRouteLength(g: Graph, a: Assignment)
    requires WellFormed(g)
    ensures forall e :: e in ObjectiveArcs(g.clients) ==> e in g.d
    ensures Objective(g, a) == Total(ActiveArcs(ObjectiveArcs(g.clients), a.x), g.d)
    ensures (forall e :: e in g.d ==> g.d[e] >= 0.0) ==> Objective(g, a) >= 0.0
  {
    ObjectiveDomain(g.clients);
    var arcs := ObjectiveArcs(g.clients);
    WeightedSumIsActiveTotal(arcs, g.d, a.x);
    if forall e :: e in g.d ==> g.d[e] >= 0.0 {
      TotalNonNegative(ActiveArcs(arcs, a.x), g.d);
    }
  }

  // ------------------------------------------------------------------
  // What each big-M constraint says on a used and on an unused arc
  // ------------------------------------------------------------------

  lemma Eq5Cases(g: Graph, a: Assignment, i: int, j: int)
    requires WellFormed(g)
    requires i in V0(g.clients) && j in VLineNp1(g.clients) && i != j
    ensures Eq5Arc(g, a, i, j) <==>
      if a.x(i, j) then a.tau(j) >= a.tau(i) + g.t[(i, j)] + g.s[i] else a.tau(j) >= a.tau(i) - g.l[0]
  {
  }

  lemma Eq8Cases(g: Graph, a: Assignment, i: int, j: int)
    requires WellFormed(g)
    requires i in V0(g.clients) && j in VLineNp1(g.clients) && i != j
    ensures Eq8Arc(g, a, i, j) <==>
      if a.x(i, j) then a.u(j) <= a.u(i) - g.q[i] else a.u(j) <= a.u(i) + g.veh.C
  {
  }

  // ------------------------------------------------------------------
  // Consequences of feasibility
  // ------------------------------------------------------------------

  /** Every client is entered exactly once, and as many vehicles leave the
      start depot as reach the end depot. */
  lemma DegreeBalance(g: Graph, a: Assignment)
    requires Eq2(g, a) && Eq4(g, a)
    ensures forall j :: j in V(g.clients) ==> InCount(a.x, j, V0(g.clients)) == 1
    ensures OutCount(a.x, 0, VLineNp1(g.clients)) == InCount(a.x, Np1(g.clients), V0(g.clients))
  {
    FlowBalance(a.x, 0, V(g.clients), Np1(g.clients));
  }

  /** Step `k` of a walk is an active arc of the domain of eq 5 and eq 8. */
  predicate RouteStep(g: Graph, a: Assignment, p: seq<int>, k: int)
    requires 0 <= k < |p| - 1
  {
    p[k] in V0(g.clients) && p[k + 1] in VLineNp1(g.clients) && p[k] != p[k + 1] && a.x(p[k], p[k + 1])
  }

  /** A walk from the depot or a client along active arcs that leave the
      depot or a client. */
  predicate RoutePath(g: Graph, a: Assignment, p: seq<int>)
  {
    |p| >= 1 && p[0] in V0(g.clients) && forall k :: 0 <= k < |p| - 1 ==> RouteStep(g, a, p, k)
  }

  /** A walk's nodes are valid array indices, and its steps are arcs. */
  lemma RouteIndices(g: Graph, a: Assignment, p: seq<int>)
    requires WellFormed(g) && RoutePath(g, a, p)
    ensures forall k :: 0 <= k < |p| ==> 0 <= p[k] < |g.q|
    ensures forall k :: 0 <= k < |p| - 1 ==> Hop(p, k) in g.t
  {
    forall k | 0 <= k < |p| ensures 0 <= p[k] < |g.q| {
      if k > 0 {
        assert RouteStep(g, a, p, k - 1);
        NodeMembership(g.clients, p[k]);
      } else {
        NodeMembership(g.clients, p[0]);
      }
    }
    forall k | 0 <= k < |p| - 1 ensures Hop(p, k) in g.t {
      assert RouteStep(g, a, p, k);
      NodeMembership(g.clients, p[k]);
      NodeMembership(g.clients, p[k + 1]);
    }
  }

  /** Travel plus service time of each step of a walk. */
  function StepTimes(g: Graph, p: seq<int>): (r: seq<real>)
    requires |p| >= 1 && forall k :: 0 <= k < |p| - 1 ==> Hop(p, k) in g.t && 0 <= p[k] < |g.s|
    ensures |r| == |p| - 1
    ensures forall k :: 0 <= k < |r| ==> r[k] == g.t[Hop(p, k)] + g.s[p[k]]
  {
    seq(|p| - 1, k requires 0 <= k < |p| - 1 => g.t[Hop(p, k)] + g.s[p[k]])
  }

  /** Each step of such a walk delays the arrival by travel plus service
      time (eq 5 on a used arc). */
  lemma TimeStep(g: Graph, a: Assignment, p: seq<int>, k: int)
    requires WellFormed(g) && Eq5(g, a) && RoutePath(g, a, p) && 0 <= k < |p| - 1
    ensures Hop(p, k) in g.t && 0 <= p[k] < |g.s|
    ensures a.tau(p[k + 1]) >= a.tau(p[k]) + g.t[Hop(p, k)] + g.s[p[k]]
  {
    assert RouteStep(g, a, p, k);
    Eq5Cases(g, a, p[k], p[k + 1]);
    assert Eq5Arc(g, a, p[k], p[k + 1]);
  }

  /** Along any walk of active arcs, arrival at its end is no earlier than
      arrival at its start plus every travel and service time on the way;
      so the start's window opening plus those times must fit in the end's
      window. */
  lemma TimeChain(g: Graph, a: Assignment, p: seq<int>)
    requires WellFormed(g) && Eq5(g, a) && Eq7(g, a) && RoutePath(g, a, p)
    ensures forall k :: 0 <= k < |p| ==> 0 <= p[k] < |g.q|
    ensures forall k :: 0 <= k < |p| - 1 ==> Hop(p, k) in g.t
    ensures a.tau(p[|p| - 1]) >= a.tau(p[0]) + Sum(StepTimes(g, p))
    ensures g.e[p[0]] + Sum(StepTimes(g, p)) <= g.l[p[|p| - 1]]
  {
    RouteIndices(g, a, p);
    var cost := StepTimes(g, p);
    var late := (k: int) => -a.tau(k);
    forall k | 0 <= k < |cost| ensures late(p[k + 1]) <= late(p[k]) - cost[k] {
      TimeStep(g, a, p, k);
    }
    Descent(late, p, cost);
    WindowsFit(g, a, p[0], p[|p| - 1], Sum(cost));
  }

  /** Two windows linked by an arrival-time gap: the first opening plus the
      gap fits before the second closing. */
  lemma WindowsFit(g: Graph, a: Assignment, i: int, j: int, gap: real)
    requires WellFormed(g) && Eq7(g, a) && 0 <= i < |g.q| && 0 <= j < |g.q|
    requires a.tau(j) >= a.tau(i) + gap
    ensures g.e[i] + gap <= g.l[j]
  {
    NodeMembership(g.clients, i);
    NodeMembership(g.clients, j);
  }

  /** The demands of the nodes a walk leaves, in order. */
  function Demands(q: seq<real>, p: seq<int>): (r: seq<real>)
    requires |p| >= 1 && forall k :: 0 <= k < |p| - 1 ==> 0 <= p[k] < |q|
    ensures |r| == |p| - 1
    ensures forall k :: 0 <= k < |r| ==> r[k] == q[p[k]]
  {
    seq(|p| - 1, k requires 0 <= k < |p| - 1 => q[p[k]])
  }

  /** Each step of such a walk lowers the load by the demand of the node
      it leaves (eq 8 on a used arc). */
  lemma LoadStep(g: Graph, a: Assignment, p: seq<int>, k: int)
    requires WellFormed(g) && Eq8(g, a) && RoutePath(g, a, p) && 0 <= k < |p| - 1
    ensures 0 <= p[k] < |g.q| && a.u(p[k + 1]) <= a.u(p[k]) - g.q[p[k]]
  {
    assert RouteStep(g, a, p, k);
    Eq8Cases(g, a, p[k], p[k + 1]);
    assert Eq8Arc(g, a, p[k], p[k + 1]);
  }

  /** Along any walk of active arcs from the start depot, the summed demand
      of the nodes left behind never exceeds the load capacity `C`. */
  lemma LoadChain(g: Graph, a: Assignment, p: seq<int>)
    requires WellFormed(g) && Eq8(g, a) && Eq9(g, a) && RoutePath(g, a, p) && p[0] == 0
    ensures forall k :: 0 <= k < |p| - 1 ==> 0 <= p[k] < |g.q|
    ensures Sum(Demands(g.q, p)) <= g.veh.C
  {
    RouteIndices(g, a, p);
    var cost := Demands(g.q, p);
    forall k | 0 <= k < |cost| ensures a.u(p[k + 1]) <= a.u(p[k]) - cost[k] {
      LoadStep(g, a, p, k);
    }
    Descent(a.u, p, cost);
    if |p| > 1 {
      assert RouteStep(g, a, p, |p| - 2);
    }
  }

  // ------------------------------------------------------------------
  // Arcs no constraint reads
  // ------------------------------------------------------------------

  /** Every constraint and the objective read `x` only on arcs from
      `{0} ∪ V` to `V ∪ {np1}`; two assignments that agree there (and on
      `tau` and `u`) are read alike. */
  ghost predicate SameOnRoutes(C: nat, a: Assignment, b: Assignment)
  {
    a.tau == b.tau && a.u == b.u &&
    forall i, j :: i in V0(C) && j in VLineNp1(C) ==> a.x(i, j) == b.x(i, j)
  }

  /** No arc into the start depot or out of the end depot is used. */
  ghost predicate Inert(C: nat, x: (int, int) -> bool)
  {
    forall i, j :: (j == 0 || i == Np1(C)) ==> !x(i, j)
  }

  /** The arcs into the start depot and out of the end depot are free:
      setting them any way keeps feasibility and the objective, so a
      solution may use them at no cost. */
  lemma FreeArcs(g: Graph, a: Assignment, b: Assignment)
    requires WellFormed(g) && SameOnRoutes(g.clients, a, b)
    ensures Feasible(g, a) <==> Feasible(g, b)
    ensures Objective(g, a) == Objective(g, b)
  {
    DegreesAgree(g, a, b);
    TimesAndLoadsAgree(g, a, b);
    BoundsAgree(g, a, b);
    ObjectiveAgrees(g, a, b);
  }

  lemma BoundsAgree(g: Graph, a: Assignment, b: Assignment)
    requires WellFormed(g) && a.tau == b.tau && a.u == b.u
    ensures (VarBounds(g, a) <==> VarBounds(g, b)) && (Eq7(g, a) <==> Eq7(g, b)) && (Eq9(g, a) <==> Eq9(g, b))
  {
  }

  lemma DegreesAgree(g: Graph, a: Assignment, b: Assignment)
    requires SameOnRoutes(g.clients, a, b)
    ensures (Eq2(g, a) <==> Eq2(g, b)) && (Eq4(g, a) <==> Eq4(g, b))
  {
    var C := g.clients;
    forall i | i in V(C) ensures OutCount(a.x, i, VLineNp1(C)) == OutCount(b.x, i, VLineNp1(C)) {
      assert i in V0(C);
      OutCountAgree(a.x, b.x, i, VLineNp1(C));
    }
    forall j | j in V(C) ensures InCount(a.x, j, V0(C)) == InCount(b.x, j, V0(C)) {
      assert j in VLineNp1(C);
      InCountAgree(a.x, b.x, j, V0(C));
    }
  }

  lemma TimesAndLoadsAgree(g: Graph, a: Assignment, b: Assignment)
    requires WellFormed(g) && SameOnRoutes(g.clients, a, b)
    ensures (Eq5(g, a) <==> Eq5(g, b)) && (Eq8(g, a) <==> Eq8(g, b))
  {
    var C := g.clients;
    forall i, j | i in V0(C) && j in VLineNp1(C) && i != j
      ensures (Eq5Arc(g, a, i, j) <==> Eq5Arc(g, b, i, j)) && (Eq8Arc(g, a, i, j) <==> Eq8Arc(g, b, i, j))
    {
      assert a.x(i, j) == b.x(i, j);
    }
  }

  lemma ObjectiveAgrees(g: Graph, a: Assignment, b: Assignment)
    requires WellFormed(g) && SameOnRoutes(g.clients, a, b)
    ensures Objective(g, a) == Objective(g, b)
  {
    var C := g.clients;
    ObjectiveDomain(C);
    forall e | e in ObjectiveArcs(C) ensures e in g.d && a.x(e.0, e.1) == b.x(e.0, e.1) {
      PairsMembership(V0(C), VLineNp1(C), e);
    }
    WeightedSumAgree(ObjectiveArcs(C), g.d, a.x, b.x);
  }

  /** On assignments that leave those arcs unused, a weighted sum over
      all of `A` is the sum over the objective's domain. */
  lemma ArcsAsObjective(g: Graph, w: map<(int, int), real>, x: (int, int) -> bool)
    requires ArcList(g) && Inert(g.clients, x)
    requires forall e :: e in g.A ==> e in w
    ensures forall e :: e in ObjectiveArcs(g.clients) ==> e in w
    ensures WeightedSum(g.A, w, x) == WeightedSum(ObjectiveArcs(g.clients), w, x)
  {
    var C := g.clients;
    var N := Nodes(C);
    assert N == V0(C) + [Np1(C)];
    assert N == [0] + VLineNp1(C);
    PairsAppendSources(V0(C), [Np1(C)], N);
    WeightedSumAppend(Pairs(V0(C), N), Pairs([Np1(C)], N), w, x);
    forall e | e in Pairs([Np1(C)], N) ensures e in w && !x(e.0, e.1) {
      PairsMembership([Np1(C)], N, e);
      PairsMembership(N, N, e);
    }
    WeightedSumInactive(Pairs([Np1(C)], N), w, x);
    WeightedPairsSplit(V0(C), [0], VLineNp1(C), w, x);
    forall e | e in Pairs(V0(C), [0]) ensures e in w && !x(e.0, e.1) {
      PairsMembership(V0(C), [0], e);
    }
    WeightedSumInactive(Pairs(V0(C), [0]), w, x);
  }

  // ------------------------------------------------------------------
  // Decoding the solver's answer
  // ------------------------------------------------------------------

  /** The cut above which the decoder reads a binary variable's value as 1. */
  const Threshold: real := 0.99

  /** `x[i, j].X > 0.99`: the arcs the decoder reads as used. */
  function Rounded(xv: (int, int) -> real): (int, int) -> bool
  {
    (i, j) => xv(i, j) > Threshold
  }

  /** `sum(x[i, j].X > 0.99 for j in T)`. */
  function CountAbove(xv: (int, int) -> real, i: int, T: seq<int>): nat
  {
    if T == [] then 0 else (if xv(i, T[0]) > Threshold then 1 else 0) + CountAbove(xv, i, T[1..])
  }

  /** `t[i, j] * x[i, j].X` on an arc read as used, nothing otherwise. */
  function ArcTime(w: real, xv: real): real
  {
    if xv > Threshold then w * xv else 0.0
  }

  /** `sum(t[i, j] * x[i, j].X for i, j in arcs if x[i, j].X > 0.99)`. */
  function RouteTime(arcs: seq<(int, int)>, t: map<(int, int), real>, xv: (int, int) -> real): real
    requires forall a :: a in arcs ==> a in t
  {
    if arcs == [] then 0.0 else ArcTime(t[arcs[0]], xv(arcs[0].0, arcs[0].1)) + RouteTime(arcs[1..], t, xv)
  }

  /** The two metrics `solver` reports besides the solver's own. */
  datatype Metrics = Metrics(vehiclesUsed: nat, totalRouteTime: real)

  /** Lines 79-84 of `solver`. With a solution (the values `xv` the solver
      gives `x`), count the depot's arcs read as used and sum travel time
      times value over every arc of `A` read as used; without one, both
      are 0. */
  function Decode(g: Graph, sol: Option<(int, int) -> real>): Metrics
    requires WellFormed(g) && ArcList(g)
  {
    match sol
    case None => Metrics(0, 0.0)
    case Some(xv) =>
      ArcsInMaps(g);
      Metrics(CountAbove(xv, 0, VLineNp1(g.clients)), RouteTime(g.A, g.t, xv))
  }

  /** `d` and `t` are defined on every arc of `A`. */
  lemma ArcsInMaps(g: Graph)
    requires WellFormed(g) && ArcList(g)
    ensures forall e :: e in g.A ==> e in g.d && e in g.t
  {
    ArcsMembership(Nodes(g.clients));
  }

  /** At most one vehicle per target is counted. */
  lemma {:induction false} CountAboveBound(xv: (int, int) -> real, i: int, T: seq<int>)
    ensures CountAbove(xv, i, T) <= |T|
    decreases |T|
  {
    if T != [] {
      CountAboveBound(xv, i, T[1..]);
    }
  }

  /** On 0/1 values the count is the number of active arcs out of `i`. */
  lemma {:induction false} CountAboveOfBinary(xv: (int, int) -> real, x: (int, int) -> bool, i: int, T: seq<int>)
    requires i !in T && forall j :: j in T ==> xv(i, j) == Val(x(i, j))
    ensures CountAbove(xv, i, T) == OutCount(x, i, T)
    decreases |T|
  {
    if T != [] {
      CountAboveOfBinary(xv, x, i, T[1..]);
    }
  }

  /** Non-negative travel times give a non-negative route time: the value
      of a counted arc is above 0.99. */
  lemma {:induction false} RouteTimeNonNegative(arcs: seq<(int, int)>, t: map<(int, int), real>, xv: (int, int) -> real)
    requires forall a :: a in arcs ==> a in t && t[a] >= 0.0
    ensures RouteTime(arcs, t, xv) >= 0.0
    decreases |arcs|
  {
    if arcs != [] {
      RouteTimeNonNegative(arcs[1..], t, xv);
      var a := arcs[0];
      if xv(a.0, a.1) > Threshold {
        assert t[a] * xv(a.0, a.1) >= 0.0;
      }
    }
  }

  /** On 0/1 values the route time is the 0/1-weighted sum of `t`. */
  lemma {:induction false} RouteTimeOfBinary(arcs: seq<(int, int)>, t: map<(int, int), real>, xv: (int, int) -> real, x: (int, int) -> bool)
    requires forall a :: a in arcs ==> a in t && xv(a.0, a.1) == Val(x(a.0, a.1))
    ensures RouteTime(arcs, t, xv) == WeightedSum(arcs, t, x)
    decreases |arcs|
  {
    if arcs != [] {
      RouteTimeOfBinary(arcs[1..], t, xv, x);
    }
  }

  /** Without a solution both metrics are 0; with one, at most C+1
      vehicles are counted, and the route time is non-negative when the
      distances are. */
  lemma DecodeBounds(g: Graph, sol: Option<(int, int) -> real>)
    requires WellFormed(g) && ArcList(g) && TravelAtSpeed(g)
    ensures sol.None? ==> Decode(g, sol) == Metrics(0, 0.0)
    ensures Decode(g, sol).vehiclesUsed <= g.clients + 1
    ensures (forall e :: e in g.d ==> g.d[e] >= 0.0) ==> Decode(g, sol).totalRouteTime >= 0.0
  {
    NodesLayout(g.clients);
    ArcsInMaps(g);
    if sol.Some? {
      CountAboveBound(sol.value, 0, VLineNp1(g.clients));
      if forall e :: e in g.d ==> g.d[e] >= 0.0 {
        forall e | e in g.A ensures e in g.t && g.t[e] >= 0.0 {
          assert g.t[e] == g.d[e] / Speed;
        }
        RouteTimeNonNegative(g.A, g.t, sol.value);
      }
    }
  }

  /** On a 0/1 solution the decoder counts the vehicles that leave the
      depot, which for a solution of eq 2 and eq 4 are those that reach
      the end depot; and when no arc into the start depot or out of the
      end depot is used, the route time is the objective over 52.5. */
  lemma DecodeBinary(g: Graph, a: Assignment, xv: (int, int) -> real)
    requires WellFormed(g) && ArcList(g) && TravelAtSpeed(g)
    requires forall e :: e in g.A ==> xv(e.0, e.1) == Val(a.x(e.0, e.1))
    ensures Decode(g, Some(xv)).vehiclesUsed == OutCount(a.x, 0, VLineNp1(g.clients))
    ensures Eq2(g, a) && Eq4(g, a) ==>
      Decode(g, Some(xv)).vehiclesUsed == InCount(a.x, Np1(g.clients), V0(g.clients))
    ensures Inert(g.clients, a.x) ==> Decode(g, Some(xv)).totalRouteTime == Objective(g, a) / Speed
  {
    var C := g.clients;
    ArcsInMaps(g);
    var used := CountAbove(xv, 0, VLineNp1(C));
    assert Decode(g, Some(xv)).vehiclesUsed == used;
    UsedFromDepot(g, a, xv);
    if Eq2(g, a) && Eq4(g, a) {
      DegreeBalance(g, a);
    }
    RouteTimeOfBinary(g.A, g.t, xv, a.x);
    if Inert(C, a.x) {
      TimeAsObjective(g, a);
    }
  }

  /** The decoder's count of arcs leaving the depot is the out-degree of
      the depot under the binary assignment. */
  lemma UsedFromDepot(g: Graph, a: Assignment, xv: (int, int) -> real)
    requires WellFormed(g) && ArcList(g)
    requires forall e :: e in g.A ==> xv(e.0, e.1) == Val(a.x(e.0, e.1))
    ensures CountAbove(xv, 0, VLineNp1(g.clients)) == OutCount(a.x, 0, VLineNp1(g.clients))
  {
    var C := g.clients;
    ArcsMembership(Nodes(C));
    forall j | j in VLineNp1(C) ensures xv(0, j) == Val(a.x(0, j)) {
      NodeMembership(C, j);
      assert (0, j) in g.A;
    }
    NodeMembership(C, 0);
    CountAboveOfBinary(xv, a.x, 0, VLineNp1(C));
  }

  /** With the depot arcs unused, travel time summed over `A` is the
      objective over the speed. */
  lemma TimeAsObjective(g: Graph, a: Assignment)
    requires WellFormed(g) && ArcList(g) && TravelAtSpeed(g) && Inert(g.clients, a.x)
    ensures forall e :: e in g.A ==> e in g.t
    ensures WeightedSum(g.A, g.t, a.x) == Objective(g, a) / Speed
  {
    var C := g.clients;
    ArcsInMaps(g);
    ArcsAsObjective(g, g.t, a.x);
    ObjectiveDomain(C);
    forall e | e in ObjectiveArcs(C) ensures e in g.d && e in g.t && g.t[e] == g.d[e] / Speed {
    }
    WeightedSumDivided(ObjectiveArcs(C), g.d, g.t, Speed, a.x);
  }
}
