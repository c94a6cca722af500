/** diamond_rush.py's heuristica: with diamonds left, the cost of the spanning tree Prim's
    algorithm grows over the player, the diamonds and the exit under the Manhattan
    metric. */
module DiamondHeuristic {
  import opened GridGeometry
  import opened DiamondMoves

  /** A tree grown from point 0: `order` lists the points in the order they join, and
      point `order[i + 1]` hangs from the earlier point `order[up[i]]`. */
  datatype Tree = Tree(order: seq<nat>, up: seq<nat>)

  ghost predicate Grown(n: nat, t: Tree)
  {
    |t.order| >= 1 && t.order[0] == 0 && |t.up| == |t.order| - 1
    && (forall i | 0 <= i < |t.order| :: t.order[i] < n)
    && (forall i, k | 0 <= i < k < |t.order| :: t.order[i] != t.order[k])
    && (forall i | 0 <= i < |t.up| :: t.up[i] <= i)
  }

  /** A tree over all `n` points: each point joins exactly once, hanging from one that
      joined before it. */
  ghost predicate SpanningTree(n: nat, t: Tree)
  {
    Grown(n, t) && |t.order| == n
  }

  /** The total Manhattan length of the tree's edges. */
  ghost function TreeCost(puntos: seq<Pos>, t: Tree): nat
    requires Grown(|puntos|, t)
    decreases |t.up|
  {
    if t.up == [] then 0
    else
      var last := |t.up| - 1;
      TreeCost(puntos, Tree(t.order[..last + 1], t.up[..last]))
      + Manhattan(puntos[t.order[t.up[last]]], puntos[t.order[last + 1]])
  }

  /** `set(range(n))`. */
  function Range(n: nat): (r: set<nat>)
    ensures forall k :: k in r <==> 0 <= k < n
    ensures |r| == n
  {
    if n == 0 then {} else Range(n - 1) + {n - 1}
  }

  /** `min(no_visitados, key=lambda j: dist_min[j])`.  A set of small indices iterates in
      ascending order, so on a tie the smallest index wins. */
  method ClosestUnvisited(distMin: array<int>, noVisitados: set<nat>) returns (j: nat)
    requires noVisitados != {} && forall k | k in noVisitados :: k < distMin.Length
    ensures j in noVisitados && forall k | k in noVisitados :: distMin[j] <= distMin[k]
  {
    ghost var some :| some in noVisitados;
    var found := false;
    j := 0;
    for k := 0 to distMin.Length
      invariant !found ==> forall q | q in noVisitados :: q >= k
      invariant found ==> j in noVisitados && forall q | q in noVisitados && q < k :: distMin[j] <= distMin[q]
    {
      if k in noVisitados && (!found || distMin[k] < distMin[j]) {
        j := k;
        found := true;
      }
    }
    assert some < distMin.Length;
  }

  /** The inner `for k in no_visitados` loop: lower each distance to the new point. */
  method Relax(distMin: array<int>, puntos: seq<Pos>, j: nat, noVisitados: set<nat>)
    requires distMin.Length == |puntos| && 0 <= j < |puntos|
    modifies distMin
    ensures forall k | 0 <= k < distMin.Length ::
      distMin[k] == if k in noVisitados && Manhattan(puntos[j], puntos[k]) < old(distMin[k])
                    then Manhattan(puntos[j], puntos[k]) else old(distMin[k])
  {
    for k := 0 to distMin.Length
      invariant forall q | 0 <= q < distMin.Length ::
        distMin[q] == if q < k && q in noVisitados && Manhattan(puntos[j], puntos[q]) < old(distMin[q])
                      then Manhattan(puntos[j], puntos[q]) else old(distMin[q])
    {
      if k in noVisitados {
        var dist := Manhattan(puntos[j], puntos[k]);
        if dist < distMin[k] {
          distMin[k] := dist;
        }
      }
    }
  }

  /** The visited points are those of the tree, the others are still to visit. */
  ghost predicate Parts(n: nat, t: Tree, visitados: set<nat>, noVisitados: set<nat>)
  {
    (forall k | k in noVisitados :: 0 < k < n)
    && (forall k | 0 <= k < n :: k in visitados || k in noVisitados)
    && (forall k | k in noVisitados :: k !in visitados)
    && (forall v :: v in visitados <==> v in t.order)
    && Grown(n, t) && |t.order| + |noVisitados| == n
  }

  /** Each unvisited point's `dist_min` is its distance to the tree point `from` names,
      and no tree point is nearer. */
  ghost predicate Nearest(puntos: seq<Pos>, dm: seq<int>, from: seq<nat>, t: Tree, noVisitados: set<nat>)
    requires Grown(|puntos|, t)
    requires forall k | k in noVisitados :: 0 <= k < |puntos|
  {
    |dm| == |puntos| && |from| == |puntos|
    && forall k | k in noVisitados ::
      from[k] < |t.order| && dm[k] == Manhattan(puntos[t.order[from[k]]], puntos[k])
      && forall s | 0 <= s < |t.order| :: dm[k] <= Manhattan(puntos[t.order[s]], puntos[k])
  }

  /** No tree point is farther from the first point than the tree's cost. */
  ghost predicate Reached(puntos: seq<Pos>, t: Tree, cost: int)
    requires Grown(|puntos|, t)
  {
    forall s | 0 <= s < |t.order| :: Manhattan(puntos[0], puntos[t.order[s]]) <= cost
  }

  ghost predicate PrimInv(puntos: seq<Pos>, dm: seq<int>, from: seq<nat>, t: Tree,
                          visitados: set<nat>, noVisitados: set<nat>, cost: int)
  {
    Parts(|puntos|, t, visitados, noVisitados)
    && Nearest(puntos, dm, from, t, noVisitados)
    && cost == TreeCost(puntos, t)
    && Reached(puntos, t, cost)
  }

  lemma PrimStart(puntos: seq<Pos>, dm: seq<int>, noVisitados: set<nat>)
    requires |puntos| >= 1 && |dm| == |puntos|
    requires noVisitados == Range(|puntos|) - {0}
    requires forall k | k in noVisitados :: dm[k] == Manhattan(puntos[0], puntos[k])
    ensures PrimInv(puntos, dm, seq(|puntos|, _ => 0), Tree([0], []), {0}, noVisitados, 0)
  {
    var n := |puntos|;
    var t := Tree([0], []);
    assert Grown(n, t);
    assert |noVisitados| == n - 1 by {
      assert 0 in Range(n);
      assert |Range(n)| == n;
    }
    assert Parts(n, t, {0}, noVisitados);
    assert Nearest(puntos, dm, seq(n, _ => 0), t, noVisitados) by {
      forall k | k in noVisitados
        ensures dm[k] == Manhattan(puntos[t.order[0]], puntos[k])
      {
      }
    }
    assert TreeCost(puntos, t) == 0;
  }

  lemma GrownStep(n: nat, t: Tree, j: nat, u: nat)
    requires Grown(n, t) && 0 <= j < n && j !in t.order && u < |t.order|
    ensures Grown(n, Tree(t.order + [j], t.up + [u]))
  {
  }

  lemma CostStep(puntos: seq<Pos>, t: Tree, j: nat, u: nat)
    requires j < |puntos|
    requires Grown(|puntos|, t) && Grown(|puntos|, Tree(t.order + [j], t.up + [u])) && u < |t.order|
    ensures TreeCost(puntos, Tree(t.order + [j], t.up + [u]))
         == TreeCost(puntos, t) + Manhattan(puntos[t.order[u]], puntos[j])
  {
    var t2 := Tree(t.order + [j], t.up + [u]);
    assert Tree(t2.order[..|t.up| + 1], t2.up[..|t.up|]) == t;
  }

  lemma PartsStep(n: nat, t: Tree, visitados: set<nat>, noVisitados: set<nat>, j: nat, u: nat)
    requires Parts(n, t, visitados, noVisitados) && j in noVisitados && u < |t.order|
    ensures Parts(n, Tree(t.order + [j], t.up + [u]), visitados + {j}, noVisitados - {j})
  {
    GrownStep(n, t, j, u);
  }

  /** `from` after joining `j` as tree point number `joined`: the unvisited points that
      came nearer now point at it. */
  ghost function Repointed(puntos: seq<Pos>, dm: seq<int>, from: seq<nat>, noVisitados: set<nat>, j: nat, joined: nat)
    : (r: seq<nat>)
    requires |dm| == |puntos| && |from| == |puntos| && j < |puntos|
    ensures |r| == |puntos|
  {
    seq(|puntos|, k requires 0 <= k < |puntos| =>
      if k in noVisitados && Manhattan(puntos[j], puntos[k]) < dm[k] then joined else from[k])
  }

  lemma NearestStep(puntos: seq<Pos>, dm: seq<int>, from: seq<nat>, t: Tree, noVisitados: set<nat>,
                    j: nat, dm2: seq<int>)
    requires Grown(|puntos|, t) && 0 <= j < |puntos| && j !in t.order
    requires forall k | k in noVisitados :: 0 <= k < |puntos|
    requires Nearest(puntos, dm, from, t, noVisitados) && j in noVisitados
    requires Grown(|puntos|, Tree(t.order + [j], t.up + [from[j]]))
    requires |dm2| == |puntos|
    requires forall k | 0 <= k < |puntos| ::
      dm2[k] == if k in noVisitados - {j} && Manhattan(puntos[j], puntos[k]) < dm[k]
                then Manhattan(puntos[j], puntos[k]) else dm[k]
    ensures var n := |puntos|;
      var from2 := Repointed(puntos, dm, from, noVisitados - {j}, j, |t.order|);
      Nearest(puntos, dm2, from2, Tree(t.order + [j], t.up + [from[j]]), noVisitados - {j})
  {
    var t2 := Tree(t.order + [j], t.up + [from[j]]);
    var nv := noVisitados - {j};
    var from2 := Repointed(puntos, dm, from, nv, j, |t.order|);
    forall k | k in nv
      ensures from2[k] < |t2.order| && dm2[k] == Manhattan(puntos[t2.order[from2[k]]], puntos[k])
      ensures forall s | 0 <= s < |t2.order| :: dm2[k] <= Manhattan(puntos[t2.order[s]], puntos[k])
    {
      if Manhattan(puntos[j], puntos[k]) < dm[k] {
        assert from2[k] == |t.order| && t2.order[|t.order|] == j;
      } else {
        assert from2[k] == from[k] && t2.order[from[k]] == t.order[from[k]];
      }
      forall s | 0 <= s < |t2.order|
        ensures dm2[k] <= Manhattan(puntos[t2.order[s]], puntos[k])
      {
        if s < |t.order| {
          assert t2.order[s] == t.order[s];
        }
      }
    }
  }

  lemma ReachedStep(puntos: seq<Pos>, t: Tree, cost: int, j: nat, u: nat)
    requires j < |puntos|
    requires Grown(|puntos|, t) && Grown(|puntos|, Tree(t.order + [j], t.up + [u])) && u < |t.order|
    requires Reached(puntos, t, cost)
    ensures Reached(puntos, Tree(t.order + [j], t.up + [u]), cost + Manhattan(puntos[t.order[u]], puntos[j]))
  {
    ManhattanMetric(puntos[0], puntos[t.order[u]], puntos[j]);
  }

  /** Joining the nearest unvisited point `j` and relaxing the distances keeps the
      invariant. */
  lemma PrimStep(puntos: seq<Pos>, dm: seq<int>, from: seq<nat>, t: Tree,
                 visitados: set<nat>, noVisitados: set<nat>, cost: int, j: nat, dm2: seq<int>)
    requires PrimInv(puntos, dm, from, t, visitados, noVisitados, cost)
    requires j in noVisitados
    requires |dm2| == |puntos|
    requires forall k | 0 <= k < |puntos| ::
      dm2[k] == if k in noVisitados - {j} && Manhattan(puntos[j], puntos[k]) < dm[k]
                then Manhattan(puntos[j], puntos[k]) else dm[k]
    ensures var n := |puntos|;
      var from2 := Repointed(puntos, dm, from, noVisitados - {j}, j, |t.order|);
      PrimInv(puntos, dm2, from2, Tree(t.order + [j], t.up + [from[j]]), visitados + {j}, noVisitados - {j},
              cost + dm[j])
  {
    var n := |puntos|;
    var u := from[j];
    PartsStep(n, t, visitados, noVisitados, j, u);
    CostStep(puntos, t, j, u);
    NearestStep(puntos, dm, from, t, noVisitados, j, dm2);
    ReachedStep(puntos, t, cost, j, u);
  }

  /** Once every point is visited the tree spans them all. */
  lemma PrimFinish(puntos: seq<Pos>, dm: seq<int>, from: seq<nat>, t: Tree, visitados: set<nat>,
                   noVisitados: set<nat>, cost: int)
    requires PrimInv(puntos, dm, from, t, visitados, noVisitados, cost) && noVisitados == {}
    ensures SpanningTree(|puntos|, t) && cost == TreeCost(puntos, t)
    ensures forall i | 0 <= i < |puntos| :: Manhattan(puntos[0], puntos[i]) <= cost
  {
    forall i | 0 <= i < |puntos|
      ensures Manhattan(puntos[0], puntos[i]) <= cost
    {
      assert i in visitados;
      var s :| 0 <= s < |t.order| && t.order[s] == i;
    }
  }

  /** One round of the `while no_visitados` loop: join the nearest unvisited point and
      relax the distances of the others. */
  method JoinNearest(puntos: seq<Pos>, distMin: array<int>, visitados: set<nat>, noVisitados: set<nat>, mstCost: int,
                     ghost from: seq<nat>, ghost t: Tree)
    returns (visitados2: set<nat>, noVisitados2: set<nat>, mstCost2: int, ghost from2: seq<nat>, ghost t2: Tree)
    requires noVisitados != {} && distMin.Length == |puntos|
    requires PrimInv(puntos, distMin[..], from, t, visitados, noVisitados, mstCost)
    modifies distMin
    ensures PrimInv(puntos, distMin[..], from2, t2, visitados2, noVisitados2, mstCost2)
    ensures |noVisitados2| < |noVisitados|
  {
    var jMejor := ClosestUnvisited(distMin, noVisitados);
    ghost var before := distMin[..];
    mstCost2 := mstCost + distMin[jMejor];
    noVisitados2 := noVisitados - {jMejor};
    visitados2 := visitados + {jMejor};
    Relax(distMin, puntos, jMejor, noVisitados2);
    PrimStep(puntos, before, from, t, visitados, noVisitados, mstCost, jMejor, distMin[..]);
    from2 := Repointed(puntos, before, from, noVisitados2, jMejor, |t.order|);
    t2 := Tree(t.order + [jMejor], t.up + [from[jMejor]]);
  }

  /** Prim's loop over the points.  The cost is that of a spanning tree, and no point is
      farther from the first than the cost. */
  method Prim(puntos: seq<Pos>) returns (mstCost: int)
    requires |puntos| >= 1
    ensures exists t: Tree :: SpanningTree(|puntos|, t) && mstCost == TreeCost(puntos, t)
    ensures forall i | 0 <= i < |puntos| :: Manhattan(puntos[0], puntos[i]) <= mstCost
  {
    var n := |puntos|;
    var noVisitados := Range(n);
    noVisitados := noVisitados - {0};
    var visitados: set<nat> := {0};
    // Entry 0 stands for Python's infinity; it is never read.
    var distMin := new int[n](_ => 0);
    var px := puntos[0];
    for j := 0 to n
      invariant forall k | k in noVisitados && k < j :: distMin[k] == Manhattan(px, puntos[k])
    {
      if j in noVisitados {
        distMin[j] := Manhattan(px, puntos[j]);
      }
    }
    ghost var from: seq<nat> := seq(n, _ => 0);
    ghost var t := Tree([0], []);
    mstCost := 0;
    PrimStart(puntos, distMin[..], noVisitados);
    while noVisitados != {}
      invariant distMin.Length == n
      invariant PrimInv(puntos, distMin[..], from, t, visitados, noVisitados, mstCost)
      decreases |noVisitados|
    {
      visitados, noVisitados, mstCost, from, t := JoinNearest(puntos, distMin, visitados, noVisitados, mstCost, from, t);
    }
    PrimFinish(puntos, distMin[..], from, t, visitados, noVisitados, mstCost);
  }

  /** `[estado.player] + list(estado.remaining_diamonds) + [salida_coord]`, with the
      iteration order of the frozenset given as `orden`. */
  function Points(st: GameState, salida: Pos, orden: seq<Pos>): seq<Pos>
  {
    [st.player] + orden + [salida]
  }

  /** `orden` lists the set `s`, each element once. */
  predicate IsListing(orden: seq<Pos>, s: set<Pos>)
  {
    (forall i | 0 <= i < |orden| :: orden[i] in s)
    && (forall p | p in s :: p in orden)
    && (forall i, k | 0 <= i < k < |orden| :: orden[i] != orden[k])
  }

  /** `list(s)` of a frozenset: its elements once each, in an order the model leaves
      open, as CPython's hashing fixes it. */
  method ListOf(s: set<Pos>) returns (orden: seq<Pos>)
    ensures IsListing(orden, s)
  {
    orden := [];
    var resto := s;
    while resto != {}
      invariant resto <= s
      invariant forall i | 0 <= i < |orden| :: orden[i] in s && orden[i] !in resto
      invariant forall p | p in s :: p in resto || p in orden
      invariant forall i, k | 0 <= i < k < |orden| :: orden[i] != orden[k]
      decreases |resto|
    {
      var x :| x in resto;
      orden := orden + [x];
      resto := resto - {x};
    }
  }

  /** heuristica.  With no diamond left it is the distance to the exit; otherwise the
      cost of a spanning tree over the player, the diamonds and the exit.  Either way it
      is at least the distance from the player to the exit and to every diamond. */
  method Heuristica(st: GameState, salida: Pos, orden: seq<Pos>) returns (h: int)
    requires IsListing(orden, st.remainingDiamonds)
    ensures h >= 0
    ensures st.remainingDiamonds == {} ==> h == Manhattan(st.player, salida)
    ensures st.remainingDiamonds != {} ==>
      var puntos := Points(st, salida, orden);
      exists t: Tree :: SpanningTree(|puntos|, t) && h == TreeCost(puntos, t)
    ensures Manhattan(st.player, salida) <= h
    ensures forall d | d in st.remainingDiamonds :: Manhattan(st.player, d) <= h
  {
    if |st.remainingDiamonds| == 0 {
      var (px, py) := st.player;
      var (sx, sy) := salida;
      return Abs(px - sx) + Abs(py - sy);
    }
    var puntos := [st.player] + orden + [salida];
    assert puntos == Points(st, salida, orden);
    h := Prim(puntos);
    assert puntos[|puntos| - 1] == salida;
    forall d | d in st.remainingDiamonds
      ensures Manhattan(st.player, d) <= h
    {
      var i :| 0 <= i < |orden| && orden[i] == d;
      assert puntos[i + 1] == d;
    }
  }
}
