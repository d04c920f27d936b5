/**
 * Index bookkeeping shared by the EVRPTW and VRPTW formulations
 * (EVRPTW/evrptw.py, VRPTW/vrptw.py): Python ranges, the list of ordered
 * pairs of distinct nodes, distance and travel-time maps over an arc list,
 * and the sums of 0/1 arc variables the degree constraints are made of.
 */
module IndexSpace {

  // ------------------------------------------------------------------
  // Ranges and pairs
  // ------------------------------------------------------------------

  /** `list(range(lo, hi))`. */
  function Range(lo: int, hi: int): (r: seq<int>)
    ensures |r| == if lo < hi then hi - lo else 0
    ensures forall k :: 0 <= k < |r| ==> r[k] == lo + k
  {
    seq(if lo < hi then hi - lo else 0, k => lo + k)
  }

  /** Membership in a range is the interval test. */
  lemma InRange(lo: int, hi: int, i: int)
    ensures i in Range(lo, hi) <==> lo <= i < hi
  {
    if lo <= i < hi {
      assert Range(lo, hi)[i - lo] == i;
    }
  }

  /** Adjacent ranges concatenate. */
  lemma RangeSplit(a: int, b: int, c: int)
    requires a <= b <= c
    ensures Range(a, b) + Range(b, c) == Range(a, c)
  {
  }

  /** No index occurs twice. */
  predicate Distinct(s: seq<int>)
  {
    forall a, b :: 0 <= a < b < |s| ==> s[a] != s[b]
  }

  /** `[(i, j) for j in T if i != j]`. */
  function PairsFrom(i: int, T: seq<int>): seq<(int, int)>
  {
    if T == [] then [] else (if T[0] != i then [(i, T[0])] else []) + PairsFrom(i, T[1..])
  }

  /** `[(i, j) for i in S for j in T if i != j]`, source-major as Python builds it. */
  function Pairs(S: seq<int>, T: seq<int>): seq<(int, int)>
  {
    if S == [] then [] else PairsFrom(S[0], T) + Pairs(S[1..], T)
  }

  /** The arc list `A` over a node list: every ordered pair of distinct nodes. */
  function Arcs(nodes: seq<int>): seq<(int, int)>
  {
    Pairs(nodes, nodes)
  }

  lemma {:induction false} PairsFromMembership(i: int, T: seq<int>, a: (int, int))
    ensures a in PairsFrom(i, T) <==> a.0 == i && a.1 in T && a.1 != i
    decreases |T|
  {
    if T != [] {
      PairsFromMembership(i, T[1..], a);
      assert T == [T[0]] + T[1..];
    }
  }

  /** A pair is generated exactly when its source is in `S`, its target in
      `T`, and the two differ. */
  lemma {:induction false} PairsMembership(S: seq<int>, T: seq<int>, a: (int, int))
    ensures a in Pairs(S, T) <==> a.0 in S && a.1 in T && a.0 != a.1
    decreases |S|
  {
    if S != [] {
      PairsFromMembership(S[0], T, a);
      PairsMembership(S[1..], T, a);
      assert S == [S[0]] + S[1..];
    }
  }

  /** Every pair of distinct nodes is an arc, and there are no self-arcs. */
  lemma ArcsMembership(nodes: seq<int>)
    ensures forall e {:trigger e in Arcs(nodes)} :: e in Arcs(nodes) <==> e.0 in nodes && e.1 in nodes && e.0 != e.1
  {
    forall e ensures e in Arcs(nodes) <==> e.0 in nodes && e.1 in nodes && e.0 != e.1 {
      PairsMembership(nodes, nodes, e);
    }
  }

  lemma {:induction false} PairsFromLength(i: int, T: seq<int>)
    requires Distinct(T)
    ensures |PairsFrom(i, T)| == if i in T then |T| - 1 else |T|
    decreases |T|
  {
    if T != [] {
      PairsFromLength(i, T[1..]);
      assert T == [T[0]] + T[1..];
      if T[0] == i {
        assert i !in T[1..];
      }
    }
  }

  lemma {:induction false} PairsLength(S: seq<int>, nodes: seq<int>)
    requires Distinct(nodes)
    requires forall k :: 0 <= k < |S| ==> S[k] in nodes
    ensures |Pairs(S, nodes)| == |S| * (|nodes| - 1)
    decreases |S|
  {
    if S != [] {
      var rest := S[1..];
      assert S[0] in nodes;
      assert forall k :: 0 <= k < |rest| ==> rest[k] == S[k + 1];
      var n := |nodes| - 1;
      PairsFromLength(S[0], nodes);
      PairsLength(rest, nodes);
      assert |Pairs(S, nodes)| == n + |rest| * n;
      MulSucc(|rest|, n);
    }
  }

  lemma MulSucc(m: int, n: int)
    ensures (m + 1) * n == n + m * n
  {
  }

  /** Over N distinct nodes the arc list has N(N-1) arcs. */
  lemma ArcsLength(nodes: seq<int>)
    requires Distinct(nodes)
    ensures |Arcs(nodes)| == |nodes| * (|nodes| - 1)
  {
    PairsLength(nodes, nodes);
  }

  // ------------------------------------------------------------------
  // Distances and travel times
  // ------------------------------------------------------------------

  /** The arcs of `A` are valid indices into coordinate lists of length `n`. */
  predicate ArcsWithin(A: seq<(int, int)>, n: nat)
  {
    forall a {:trigger a in A} :: a in A ==> 0 <= a.0 < n && 0 <= a.1 < n
  }

  /** `d = {(i, j): np.hypot(x_c[i]-x_c[j], y_c[i]-y_c[j]) for i, j in A}`,
      with `np.hypot` the parameter `hypot`. */
  function Distances(A: seq<(int, int)>, xc: seq<real>, yc: seq<real>, hypot: (real, real) -> real): (d: map<(int, int), real>)
    requires |xc| == |yc| && ArcsWithin(A, |xc|)
    ensures forall a :: a in d <==> a in A
  {
    map a | a in A :: hypot(xc[a.0] - xc[a.1], yc[a.0] - yc[a.1])
  }

  /** Each arc's entry is the distance between its two endpoints. */
  lemma DistanceOf(A: seq<(int, int)>, xc: seq<real>, yc: seq<real>, hypot: (real, real) -> real)
    requires |xc| == |yc| && ArcsWithin(A, |xc|)
    ensures forall a {:trigger a in A} :: a in A ==>
      Distances(A, xc, yc, hypot)[a] == hypot(xc[a.0] - xc[a.1], yc[a.0] - yc[a.1])
  {
  }

  /** The distance map is symmetric over a symmetric arc list when
      `hypot` ignores the signs of its arguments, as `np.hypot` does. */
  lemma DistancesSymmetric(A: seq<(int, int)>, xc: seq<real>, yc: seq<real>, hypot: (real, real) -> real)
    requires |xc| == |yc| && ArcsWithin(A, |xc|)
    requires forall a {:trigger a in A} :: a in A ==> (a.1, a.0) in A
    requires forall dx, dy :: hypot(-dx, -dy) == hypot(dx, dy)
    ensures forall a {:trigger a in A} :: a in A ==>
      Distances(A, xc, yc, hypot)[a] == Distances(A, xc, yc, hypot)[(a.1, a.0)]
  {
    var d := Distances(A, xc, yc, hypot);
    forall a | a in A ensures d[a] == d[(a.1, a.0)] {
      var dx, dy := xc[a.0] - xc[a.1], yc[a.0] - yc[a.1];
      assert xc[a.1] - xc[a.0] == -dx && yc[a.1] - yc[a.0] == -dy;
      assert hypot(-dx, -dy) == hypot(dx, dy);
    }
  }

  /** Distances are non-negative when `hypot` is. */
  lemma DistancesNonNegative(A: seq<(int, int)>, xc: seq<real>, yc: seq<real>, hypot: (real, real) -> real)
    requires |xc| == |yc| && ArcsWithin(A, |xc|)
    requires forall dx, dy :: hypot(dx, dy) >= 0.0
    ensures forall a :: a in A ==> Distances(A, xc, yc, hypot)[a] >= 0.0
  {
  }

  /** `t = {(i, j): d[i, j] / v for i, j in A}`. */
  function TravelTimes(A: seq<(int, int)>, d: map<(int, int), real>, v: real): (t: map<(int, int), real>)
    requires v != 0.0
    requires forall a :: a in A ==> a in d
    ensures forall a :: a in t <==> a in A
  {
    map a | a in A :: d[a] / v
  }

  // ------------------------------------------------------------------
  // Sums over 0/1 arc variables
  // ------------------------------------------------------------------

  /** The value a binary variable contributes to a linear expression. */
  function Val(b: bool): real
  {
    if b then 1.0 else 0.0
  }

  /** `w * x` for a binary variable `x`: the coefficient when the variable
      is 1, nothing when it is 0. */
  function Scale(w: real, b: bool): real
  {
    if b then w else 0.0
  }

  /** `Scale` is the product with the variable's value, and scaling by the
      complement is the product with `1 - x`. */
  lemma ScaleIsProduct(w: real, b: bool)
    ensures Scale(w, b) == w * Val(b)
    ensures Scale(w, !b) == w * (1.0 - Val(b))
  {
  }

  /** `quicksum(x[i, j] for j in T if i != j)`: the active arcs leaving `i`
      towards `T`. */
  function OutCount(x: (int, int) -> bool, i: int, T: seq<int>): nat
  {
    if T == [] then 0 else (if T[0] != i && x(i, T[0]) then 1 else 0) + OutCount(x, i, T[1..])
  }

  /** `quicksum(x[i, j] for i in S if i != j)`: the active arcs entering `j`
      from `S`. */
  function InCount(x: (int, int) -> bool, j: int, S: seq<int>): nat
  {
    if S == [] then 0 else (if S[0] != j && x(S[0], j) then 1 else 0) + InCount(x, j, S[1..])
  }

  /** Active arcs from `S` to `T`, summed source by source. */
  function ArcCount(x: (int, int) -> bool, S: seq<int>, T: seq<int>): nat
  {
    if S == [] then 0 else OutCount(x, S[0], T) + ArcCount(x, S[1..], T)
  }

  /** Active arcs from `S` to `T`, summed target by target. */
  function InTotal(x: (int, int) -> bool, T: seq<int>, S: seq<int>): nat
  {
    if T == [] then 0 else InCount(x, T[0], S) + InTotal(x, T[1..], S)
  }

  /** At most one arc per target. */
  lemma {:induction false} OutCountBound(x: (int, int) -> bool, i: int, T: seq<int>)
    ensures OutCount(x, i, T) <= |T|
    decreases |T|
  {
    if T != [] {
      OutCountBound(x, i, T[1..]);
    }
  }

  /** Assignments that agree on the arcs from `i` to `T` count alike. */
  lemma {:induction false} OutCountAgree(x: (int, int) -> bool, y: (int, int) -> bool, i: int, T: seq<int>)
    requires forall j :: j in T ==> x(i, j) == y(i, j)
    ensures OutCount(x, i, T) == OutCount(y, i, T)
    decreases |T|
  {
    if T != [] {
      OutCountAgree(x, y, i, T[1..]);
    }
  }

  /** Assignments that agree on the arcs from `S` to `j` count alike. */
  lemma {:induction false} InCountAgree(x: (int, int) -> bool, y: (int, int) -> bool, j: int, S: seq<int>)
    requires forall i :: i in S ==> x(i, j) == y(i, j)
    ensures InCount(x, j, S) == InCount(y, j, S)
    decreases |S|
  {
    if S != [] {
      InCountAgree(x, y, j, S[1..]);
    }
  }

  lemma {:induction false} OutCountAppend(x: (int, int) -> bool, i: int, T1: seq<int>, T2: seq<int>)
    ensures OutCount(x, i, T1 + T2) == OutCount(x, i, T1) + OutCount(x, i, T2)
    decreases |T1|
  {
    if T1 == [] {
      assert T1 + T2 == T2;
    } else {
      assert (T1 + T2)[1..] == T1[1..] + T2;
      OutCountAppend(x, i, T1[1..], T2);
    }
  }

  lemma {:induction false} InCountAppend(x: (int, int) -> bool, j: int, S1: seq<int>, S2: seq<int>)
    ensures InCount(x, j, S1 + S2) == InCount(x, j, S1) + InCount(x, j, S2)
    decreases |S1|
  {
    if S1 == [] {
      assert S1 + S2 == S2;
    } else {
      assert (S1 + S2)[1..] == S1[1..] + S2;
      InCountAppend(x, j, S1[1..], S2);
    }
  }

  lemma {:induction false} ArcCountAppendSources(x: (int, int) -> bool, S1: seq<int>, S2: seq<int>, T: seq<int>)
    ensures ArcCount(x, S1 + S2, T) == ArcCount(x, S1, T) + ArcCount(x, S2, T)
    decreases |S1|
  {
    if S1 == [] {
      assert S1 + S2 == S2;
    } else {
      assert (S1 + S2)[1..] == S1[1..] + S2;
      ArcCountAppendSources(x, S1[1..], S2, T);
    }
  }

  lemma {:induction false} ArcCountAppendTargets(x: (int, int) -> bool, S: seq<int>, T1: seq<int>, T2: seq<int>)
    ensures ArcCount(x, S, T1 + T2) == ArcCount(x, S, T1) + ArcCount(x, S, T2)
    decreases |S|
  {
    if S != [] {
      OutCountAppend(x, S[0], T1, T2);
      ArcCountAppendTargets(x, S[1..], T1, T2);
    }
  }

  lemma {:induction false} InTotalNoSources(x: (int, int) -> bool, T: seq<int>)
    ensures InTotal(x, T, []) == 0
    decreases |T|
  {
    if T != [] {
      InTotalNoSources(x, T[1..]);
    }
  }

  lemma {:induction false} InTotalConsSource(x: (int, int) -> bool, T: seq<int>, s: int, S: seq<int>)
    ensures InTotal(x, T, [s] + S) == OutCount(x, s, T) + InTotal(x, T, S)
    decreases |T|
  {
    if T != [] {
      assert ([s] + S)[1..] == S;
      InTotalConsSource(x, T[1..], s, S);
    }
  }

  /** Counting active arcs target by target gives the same total as
      counting them source by source. */
  lemma {:induction false} InTotalIsArcCount(x: (int, int) -> bool, T: seq<int>, S: seq<int>)
    ensures InTotal(x, T, S) == ArcCount(x, S, T)
    decreases |S|
  {
    if S == [] {
      InTotalNoSources(x, T);
    } else {
      assert S == [S[0]] + S[1..];
      InTotalConsSource(x, T, S[0], S[1..]);
      InTotalIsArcCount(x, T, S[1..]);
    }
  }

  /** Pointwise equal per-node counts have equal totals. */
  lemma {:induction false} BalancedTotals(x: (int, int) -> bool, inner: seq<int>, Out: seq<int>, In: seq<int>)
    requires forall j :: j in inner ==> OutCount(x, j, Out) == InCount(x, j, In)
    ensures ArcCount(x, inner, Out) == InTotal(x, inner, In)
    decreases |inner|
  {
    if inner != [] {
      assert inner[0] in inner;
      assert forall j :: j in inner[1..] ==> j in inner;
      BalancedTotals(x, inner[1..], Out, In);
    }
  }

  /** Flow conservation on every inner node (out-degree towards
      `inner + [snk]` equals in-degree from `[src] + inner`) forces as many
      active arcs to leave `src` as enter `snk`. */
  lemma FlowBalance(x: (int, int) -> bool, src: int, inner: seq<int>, snk: int)
    requires forall j :: j in inner ==> OutCount(x, j, inner + [snk]) == InCount(x, j, [src] + inner)
    ensures OutCount(x, src, inner + [snk]) == InCount(x, snk, [src] + inner)
  {
    BalancedTotals(x, inner, inner + [snk], [src] + inner);
    ArcCountAppendTargets(x, inner, inner, [snk]);
    InTotalIsArcCount(x, inner, [src] + inner);
    ArcCountAppendSources(x, [src], inner, inner);
    // active arcs from inner to snk equal active arcs from src to inner
    InTotalIsArcCount(x, [snk], inner);
    assert ArcCount(x, inner, [snk]) == InCount(x, snk, inner);
    assert ArcCount(x, [src], inner) == OutCount(x, src, inner);
    OutCountAppend(x, src, inner, [snk]);
    InCountAppend(x, snk, [src], inner);
  }

  // ------------------------------------------------------------------
  // Sums over arc lists
  // ------------------------------------------------------------------

  /** `quicksum(w[a] * x[a] for a in arcs)`. */
  function WeightedSum(arcs: seq<(int, int)>, w: map<(int, int), real>, x: (int, int) -> bool): real
    requires forall a :: a in arcs ==> a in w
  {
    if arcs == [] then 0.0 else Scale(w[arcs[0]], x(arcs[0].0, arcs[0].1)) + WeightedSum(arcs[1..], w, x)
  }

  /** The arcs of the list whose variable is 1, in list order. */
  function ActiveArcs(arcs: seq<(int, int)>, x: (int, int) -> bool): (r: seq<(int, int)>)
    ensures forall a {:trigger a in r} {:trigger a in arcs} :: a in r <==> a in arcs && x(a.0, a.1)
  {
    if arcs == [] then []
    else (if x(arcs[0].0, arcs[0].1) then [arcs[0]] else []) + ActiveArcs(arcs[1..], x)
  }

  /** Plain total of the weights of an arc list. */
  function Total(arcs: seq<(int, int)>, w: map<(int, int), real>): real
    requires forall a :: a in arcs ==> a in w
  {
    if arcs == [] then 0.0 else w[arcs[0]] + Total(arcs[1..], w)
  }

  /** A 0/1-weighted sum is the total weight of the active arcs. */
  lemma {:induction false} WeightedSumIsActiveTotal(arcs: seq<(int, int)>, w: map<(int, int), real>, x: (int, int) -> bool)
    requires forall a :: a in arcs ==> a in w
    ensures WeightedSum(arcs, w, x) == Total(ActiveArcs(arcs, x), w)
    decreases |arcs|
  {
    if arcs != [] {
      WeightedSumIsActiveTotal(arcs[1..], w, x);
      var rest := ActiveArcs(arcs[1..], x);
      if x(arcs[0].0, arcs[0].1) {
        assert ActiveArcs(arcs, x) == [arcs[0]] + rest;
        assert ([arcs[0]] + rest)[1..] == rest;
      } else {
        assert ActiveArcs(arcs, x) == rest;
      }
    }
  }

  /** Non-negative weights give a non-negative total. */
  lemma {:induction false} TotalNonNegative(arcs: seq<(int, int)>, w: map<(int, int), real>)
    requires forall a :: a in arcs ==> a in w && w[a] >= 0.0
    ensures Total(arcs, w) >= 0.0
    decreases |arcs|
  {
    if arcs != [] {
      TotalNonNegative(arcs[1..], w);
    }
  }

  /** A weighted sum over two lists is the sum of the two. */
  lemma {:induction false} WeightedSumAppend(a1: seq<(int, int)>, a2: seq<(int, int)>, w: map<(int, int), real>, x: (int, int) -> bool)
    requires forall a :: a in a1 + a2 ==> a in w
    ensures WeightedSum(a1 + a2, w, x) == WeightedSum(a1, w, x) + WeightedSum(a2, w, x)
    decreases |a1|
  {
    if a1 == [] {
      assert a1 + a2 == a2;
    } else {
      assert (a1 + a2)[1..] == a1[1..] + a2;
      WeightedSumAppend(a1[1..], a2, w, x);
    }
  }

  /** Arcs whose variable is 0 add nothing. */
  lemma {:induction false} WeightedSumInactive(arcs: seq<(int, int)>, w: map<(int, int), real>, x: (int, int) -> bool)
    requires forall a :: a in arcs ==> a in w && !x(a.0, a.1)
    ensures WeightedSum(arcs, w, x) == 0.0
    decreases |arcs|
  {
    if arcs != [] {
      WeightedSumInactive(arcs[1..], w, x);
    }
  }

  /** Two assignments that agree on every listed arc give the same sum. */
  lemma {:induction false} WeightedSumAgree(arcs: seq<(int, int)>, w: map<(int, int), real>, x: (int, int) -> bool, y: (int, int) -> bool)
    requires forall a :: a in arcs ==> a in w && x(a.0, a.1) == y(a.0, a.1)
    ensures WeightedSum(arcs, w, x) == WeightedSum(arcs, w, y)
    decreases |arcs|
  {
    if arcs != [] {
      WeightedSumAgree(arcs[1..], w, x, y);
    }
  }

  /** Dividing every weight by `v` divides the sum by `v`. */
  lemma {:induction false} WeightedSumDivided(arcs: seq<(int, int)>, w: map<(int, int), real>, u: map<(int, int), real>, v: real, x: (int, int) -> bool)
    requires v != 0.0
    requires forall a :: a in arcs ==> a in w && a in u && u[a] == w[a] / v
    ensures WeightedSum(arcs, u, x) == WeightedSum(arcs, w, x) / v
    decreases |arcs|
  {
    if arcs != [] {
      WeightedSumDivided(arcs[1..], w, u, v, x);
      var a := arcs[0];
      var head := Scale(w[a], x(a.0, a.1));
      assert Scale(u[a], x(a.0, a.1)) == head / v;
      DividedSum(head, WeightedSum(arcs[1..], w, x), v);
    }
  }

  lemma DividedSum(p: real, q: real, v: real)
    requires v != 0.0
    ensures p / v + q / v == (p + q) / v
  {
  }

  /** Splitting the targets splits the arcs out of one source. */
  lemma {:induction false} PairsFromAppend(i: int, T1: seq<int>, T2: seq<int>)
    ensures PairsFrom(i, T1 + T2) == PairsFrom(i, T1) + PairsFrom(i, T2)
    decreases |T1|
  {
    if T1 == [] {
      assert T1 + T2 == T2;
    } else {
      assert (T1 + T2)[1..] == T1[1..] + T2;
      PairsFromAppend(i, T1[1..], T2);
    }
  }

  /** Splitting the sources splits the pair list. */
  lemma {:induction false} PairsAppendSources(S1: seq<int>, S2: seq<int>, T: seq<int>)
    ensures Pairs(S1 + S2, T) == Pairs(S1, T) + Pairs(S2, T)
    decreases |S1|
  {
    if S1 == [] {
      assert S1 + S2 == S2;
    } else {
      assert (S1 + S2)[1..] == S1[1..] + S2;
      PairsAppendSources(S1[1..], S2, T);
    }
  }

  /** Splitting the targets splits a weighted sum over a pair list, though
      not the list itself: the pairs interleave. */
  lemma {:induction false} WeightedPairsSplit(S: seq<int>, T1: seq<int>, T2: seq<int>, w: map<(int, int), real>, x: (int, int) -> bool)
    requires forall a :: a in Pairs(S, T1 + T2) ==> a in w
    ensures forall a :: a in Pairs(S, T1) ==> a in w
    ensures forall a :: a in Pairs(S, T2) ==> a in w
    ensures WeightedSum(Pairs(S, T1 + T2), w, x) == WeightedSum(Pairs(S, T1), w, x) + WeightedSum(Pairs(S, T2), w, x)
    decreases |S|
  {
    forall a | a in Pairs(S, T1) ensures a in w {
      PairsMembership(S, T1, a);
      PairsMembership(S, T1 + T2, a);
    }
    forall a | a in Pairs(S, T2) ensures a in w {
      PairsMembership(S, T2, a);
      PairsMembership(S, T1 + T2, a);
    }
    if S != [] {
      var s := S[0];
      PairsFromAppend(s, T1, T2);
      WeightedSumAppend(PairsFrom(s, T1 + T2), Pairs(S[1..], T1 + T2), w, x);
      WeightedSumAppend(PairsFrom(s, T1), PairsFrom(s, T2), w, x);
      WeightedSumAppend(PairsFrom(s, T1), Pairs(S[1..], T1), w, x);
      WeightedSumAppend(PairsFrom(s, T2), Pairs(S[1..], T2), w, x);
      WeightedPairsSplit(S[1..], T1, T2, w, x);
    }
  }

  // ------------------------------------------------------------------
  // Chains of active arcs
  // ------------------------------------------------------------------

  /** The arc taken at step `k` of a walk. */
  function Hop(p: seq<int>, k: int): (int, int)
    requires 0 <= k < |p| - 1
  {
    (p[k], p[k + 1])
  }

  /** Sum of a sequence of reals. */
  function Sum(r: seq<real>): real
  {
    if r == [] then 0.0 else r[0] + Sum(r[1..])
  }

  /** The first term split off a sum. */
  lemma SumFirst(r: seq<real>)
    requires r != []
    ensures Sum(r) == r[0] + Sum(r[1..])
  {
  }

  /** If a potential drops by at least `cost[k]` along each step of the walk
      `p`, it drops by at least the total cost from the first node to the
      last. The load, battery and time constraints are all of this shape. */
  lemma {:induction false} Descent(pot: int -> real, p: seq<int>, cost: seq<real>)
    requires |p| == |cost| + 1
    requires forall k :: 0 <= k < |cost| ==> pot(p[k + 1]) <= pot(p[k]) - cost[k]
    ensures pot(p[|p| - 1]) <= pot(p[0]) - Sum(cost)
    decreases |cost|
  {
    if cost != [] {
      Descent(pot, p[1..], cost[1..]);
    }
  }
}
