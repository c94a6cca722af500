/** solver.py's heuristico and a_estrella. */
module SolverSearch {
  import opened Wrappers
  import opened GridGeometry
  import opened SolverState
  import opened SolverMoves
  import opened Frontier

  /** heuristico.  With diamonds left: the distance to the nearest diamond plus the
      distance from the exit to its nearest diamond (not necessarily the same one).
      With doors left: 10 more than the nearest key, 100 with no key anywhere, or the
      door distances when a key is held.  Otherwise the distance to the exit. */
  function Heuristic(e: Estado, salida: Pos): (h: int)
    ensures h >= 0
  {
    var k := e.core;
    var p := k.jugador;
    if k.diamantes != {} then
      MinDistance(k.diamantes, p) + MinDistance(k.diamantes, salida)
    else if k.puertas != {} && k.keys == 0 && k.llavesPos != {} then
      MinDistance(k.llavesPos, p) + 10
    else if k.puertas != {} && k.keys == 0 then
      100
    else if k.puertas != {} && k.keys > 0 then
      MinDistance(k.puertas, p) + MinDistance(k.puertas, salida)
    else
      Manhattan(p, salida)
  }

  /** With nothing left to collect or open, the estimate is the distance to the exit, so
      it is 0 on a goal. */
  lemma HeuristicPlain(e: Estado, salida: Pos)
    requires e.core.diamantes == {} && e.core.puertas == {}
    ensures Heuristic(e, salida) == Manhattan(e.core.jugador, salida)
    ensures IsGoal(e, salida) ==> Heuristic(e, salida) == 0
  {
    ManhattanMetric(e.core.jugador, salida, salida);
  }

  /** With diamonds left the estimate never exceeds the length of the detour through any
      one of them. */
  lemma HeuristicDiamondBound(e: Estado, salida: Pos)
    requires e.core.diamantes != {}
    ensures forall d | d in e.core.diamantes ::
      Heuristic(e, salida) <= Manhattan(e.core.jugador, d) + Manhattan(d, salida)
  {
    forall d | d in e.core.diamantes
      ensures Heuristic(e, salida) <= Manhattan(e.core.jugador, d) + Manhattan(d, salida)
    {
      ManhattanMetric(d, salida, salida);
    }
  }

  /** The door constants make the estimate nonzero on some goals: a state on the exit
      with no diamonds, one door and no key anywhere is estimated at 100. */
  lemma GoalWithDoorEstimated100()
    ensures var e := NewEstado((0, 0), {}, {}, 0, {(1, 1)}, {}, {}, {}, map[], None, None);
      IsGoal(e, (0, 0)) && Heuristic(e, (0, 0)) == 100
  {
  }

  // ---------------------------------------------------------------- search

  /** The state reached by playing `acts` from `s`; None once a move is refused. */
  function Replay(s: Estado, mapa: seq<seq<int>>, acts: seq<Dir>): Option<Estado>
    requires Grid(mapa)
    decreases |acts|
  {
    if acts == [] then Some(s)
    else
      match Move(s, mapa, acts[0])
      case None => None
      case Some(t) => Replay(t, mapa, acts[1..])
  }

  lemma {:induction false} ReplayAppend(s: Estado, mapa: seq<seq<int>>, a: seq<Dir>, b: seq<Dir>)
    requires Grid(mapa)
    ensures Replay(s, mapa, a + b)
         == match Replay(s, mapa, a) case None => None case Some(t) => Replay(t, mapa, b)
    decreases |a|
  {
    if a == [] {
      assert a + b == b;
    } else {
      assert (a + b)[0] == a[0];
      assert (a + b)[1..] == a[1..] + b;
      match Move(s, mapa, a[0])
      case None =>
      case Some(t) => ReplayAppend(t, mapa, a[1..], b);
    }
  }

  /** Every state on the frontier was produced from the start by the moves on its parent
      chain. */
  ghost predicate Chain(x: Estado, inicial: Estado, mapa: seq<seq<int>>)
    requires Grid(mapa)
    decreases x
  {
    match x.accion
    case None => x == inicial
    case Some(d) =>
      x.parent.Some? && Move(x.parent.value, mapa, d) == Some(x) && Chain(x.parent.value, inicial, mapa)
  }

  /** Playing a chained state's route from the start leads back to that state. */
  lemma {:induction false} ChainReplays(x: Estado, inicial: Estado, mapa: seq<seq<int>>)
    requires Grid(mapa) && Chain(x, inicial, mapa)
    ensures Replay(inicial, mapa, Route(x)) == Some(x)
    decreases x
  {
    match x.accion
    case None =>
    case Some(d) =>
      var p := x.parent.value;
      ChainReplays(p, inicial, mapa);
      ReplayAppend(inicial, mapa, Route(p), [d]);
  }

  datatype SearchResult = Found(acciones: seq<Dir>) | NoSolution | OutOfFuel

  /** a_estrella, cut off after `fuel` pops.  A returned plan, played from the start
      state, ends on the exit with every diamond collected. */
  method AStar(inicial: Estado, mapa: seq<seq<int>>, salida: Pos, fuel: nat) returns (res: SearchResult)
    requires Grid(mapa) && inicial.accion.None?
    ensures res.Found? ==>
      var fin := Replay(inicial, mapa, res.acciones);
      fin.Some? && IsGoal(fin.value, salida)
  {
    var h0 := Heuristic(inicial, salida);
    var frontera: seq<Entry<Estado>> := [Entry(0 + h0, 0, 0, inicial)];
    var contador := 1;
    var mejorG: map<Core, nat> := map[inicial.core := 0];
    var pasos := 0;
    while frontera != [] && pasos < fuel
      invariant forall x | x in frontera :: Chain(x.state, inicial, mapa)
      decreases fuel - pasos
    {
      pasos := pasos + 1;
      var actual, resto := PopMin(frontera);
      RestInHeap(frontera, actual, resto);
      frontera := resto;
      var estadoAct := actual.state;
      if estadoAct.core in mejorG && actual.g > mejorG[estadoAct.core] {
        continue;
      }
      if IsGoal(estadoAct, salida) {
        var ruta := ReconstructRoute(estadoAct);
        ChainReplays(estadoAct, inicial, mapa);
        return Found(ruta);
      }
      var sucesores := Vecinos(estadoAct, mapa);
      SuccessorsComplete(estadoAct, mapa);
      for i := 0 to |sucesores|
        invariant forall x | x in frontera :: Chain(x.state, inicial, mapa)
      {
        var (accion, estadoSig) := sucesores[i];
        assert sucesores[i] in sucesores;
        MoveTarget(estadoAct, mapa, accion);
        var gSig := actual.g + 1;
        if estadoSig.core !in mejorG || gSig < mejorG[estadoSig.core] {
          mejorG := mejorG[estadoSig.core := gSig];
          var hSig := Heuristic(estadoSig, salida);
          var fSig := gSig + hSig;
          estadoSig := estadoSig.(parent := Some(estadoAct), accion := Some(accion));
          frontera := frontera + [Entry(fSig, gSig, contador, estadoSig)];
          contador := contador + 1;
        }
      }
    }
    if frontera == [] {
      return NoSolution;
    }
    return OutOfFuel;
  }
}
