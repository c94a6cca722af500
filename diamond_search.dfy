/** diamond_rush.py's encontrar_camino_optimo: A* over `GameState`s with a best-cost
    table and a predecessor table, and the walk back along the predecessors. */
module DiamondSearch {
  import opened Wrappers
  import opened GridGeometry
  import opened SolverState
  import opened DiamondMoves
  import opened DiamondHeuristic
  import opened Frontier

  /** The state reached by playing `acts` from `s`; None once a move is refused. */
  function Replay(s: GameState, m: seq<seq<int>>, acts: seq<Dir>): Option<GameState>
    requires Grid(m) && StonesInBounds(s, m)
    decreases |acts|
  {
    if acts == [] then Some(s)
    else
      match Step(s, m, acts[0])
      case None => None
      case Some(t) =>
        StonesStayOnBoard(s, m, acts[0]);
        Replay(t, m, acts[1..])
  }

  /** The predecessor table: the start has no predecessor, and every other entry names
      a state of the table, of strictly smaller best cost, from which its action leads
      here. */
  ghost predicate Links(pred: map<GameState, Option<(GameState, Dir)>>, mejor: map<GameState, nat>,
                        inicial: GameState, m: seq<seq<int>>)
    requires Grid(m)
  {
    inicial in pred && pred[inicial].None?
    && (forall x | x in pred :: x in mejor && StonesInBounds(x, m))
    && forall x | x in pred ::
      match pred[x]
      case None => x == inicial
      case Some(link) =>
        link.0 in pred && mejor[link.0] < mejor[x] && Step(link.0, m, link.1) == Some(x)
  }

  datatype SearchOutcome = Path(acciones: seq<Dir>) | NoPath | OutOfFuel

  predicate AtGoal(st: GameState, salida: Pos)
  {
    |st.remainingDiamonds| == 0 && st.player == salida
  }

  /** The walk back from a goal state: returns the actions, in playing order, that lead
      from the start to it. */
  method WalkBack(pred: map<GameState, Option<(GameState, Dir)>>, mejor: map<GameState, nat>,
                  inicial: GameState, m: seq<seq<int>>, estado: GameState) returns (acciones: seq<Dir>)
    requires Grid(m) && Links(pred, mejor, inicial, m) && estado in pred
    ensures Replay(inicial, m, acciones) == Some(estado)
  {
    var inversa: seq<Dir> := [];
    var actual := estado;
    while pred[actual].Some?
      invariant actual in pred
      invariant Replay(actual, m, Reversed(inversa)) == Some(estado)
      decreases mejor[actual]
    {
      var (anterior, accion) := pred[actual].value;
      assert (inversa + [accion])[..|inversa|] == inversa;
      assert Reversed(inversa + [accion]) == [accion] + Reversed(inversa);
      assert ([accion] + Reversed(inversa))[1..] == Reversed(inversa);
      inversa := inversa + [accion];
      actual := anterior;
    }
    acciones := Reversed(inversa);
  }

  /** The frontier's states are in the tables, each pushed with a cost no smaller than
      its best. */
  ghost predicate Pushed(frontera: seq<Entry<GameState>>, pred: map<GameState, Option<(GameState, Dir)>>,
                         mejor: map<GameState, nat>)
  {
    forall e | e in frontera :: e.state in pred && e.state in mejor && mejor[e.state] <= e.g
  }

  /** Recording a cheaper way to `nuevo`, through `estado`, keeps both tables and the
      frontier consistent. */
  lemma Relink(pred: map<GameState, Option<(GameState, Dir)>>, mejor: map<GameState, nat>, inicial: GameState,
               m: seq<seq<int>>, frontera: seq<Entry<GameState>>, estado: GameState, g: nat, accion: Dir,
               nuevo: GameState)
    requires Grid(m) && Tables(pred, mejor, frontera, inicial, m)
    requires estado in pred && mejor[estado] <= g
    requires Step(estado, m, accion) == Some(nuevo) && StonesInBounds(nuevo, m)
    requires nuevo !in mejor || g + 1 < mejor[nuevo]
    ensures var pred2, mejor2 := pred[nuevo := Some((estado, accion))], mejor[nuevo := g + 1];
      Tables(pred2, mejor2, frontera, inicial, m)
  {
    var pred2, mejor2 := pred[nuevo := Some((estado, accion))], mejor[nuevo := g + 1];
    assert nuevo != inicial;
    forall x | x in pred2
      ensures x in mejor2 && StonesInBounds(x, m)
      ensures match pred2[x]
        case None => x == inicial
        case Some(link) => link.0 in pred2 && mejor2[link.0] < mejor2[x] && Step(link.0, m, link.1) == Some(x)
    {
      if x != nuevo {
        assert pred2[x] == pred[x];
      }
    }
  }

  /** The tables and the frontier agree: the loop invariant of the search. */
  ghost predicate Tables(pred: map<GameState, Option<(GameState, Dir)>>, mejor: map<GameState, nat>,
                         frontera: seq<Entry<GameState>>, inicial: GameState, m: seq<seq<int>>)
    requires Grid(m)
  {
    Links(pred, mejor, inicial, m) && mejor[inicial] == 0 && Pushed(frontera, pred, mejor)
  }

  /** The body of the successor loop for one successor `nuevo`, reached by `accion`. */
  method Consider(m: seq<seq<int>>, inicial: GameState, salida: Pos, estado: GameState, g: nat,
                  nuevo: GameState, accion: Dir,
                  pred0: map<GameState, Option<(GameState, Dir)>>, mejor0: map<GameState, nat>,
                  frontera0: seq<Entry<GameState>>, contador0: nat)
    returns (pred: map<GameState, Option<(GameState, Dir)>>, mejor: map<GameState, nat>,
             frontera: seq<Entry<GameState>>, contador: nat)
    requires Grid(m) && Tables(pred0, mejor0, frontera0, inicial, m)
    requires estado in pred0 && mejor0[estado] <= g
    requires Step(estado, m, accion) == Some(nuevo)
    ensures Tables(pred, mejor, frontera, inicial, m)
    ensures estado in pred && mejor[estado] <= g
  {
    pred, mejor, frontera, contador := pred0, mejor0, frontera0, contador0;
    StonesStayOnBoard(estado, m, accion);
    var nuevoG := g + 1;
    if nuevo !in mejor || nuevoG < mejor[nuevo] {
      Relink(pred, mejor, inicial, m, frontera, estado, g, accion, nuevo);
      mejor := mejor[nuevo := nuevoG];
      pred := pred[nuevo := Some((estado, accion))];
      var orden := ListOf(nuevo.remainingDiamonds);
      var h := Heuristica(nuevo, salida, orden);
      frontera := frontera + [Entry(nuevoG + h, nuevoG, contador, nuevo)];
      contador := contador + 1;
    }
  }

  /** The `for nuevo_estado, accion in ...` loop over the successors of `estado`. */
  method Expand(m: seq<seq<int>>, inicial: GameState, salida: Pos, estado: GameState, g: nat,
                sucesores: seq<(GameState, Dir)>,
                pred0: map<GameState, Option<(GameState, Dir)>>, mejor0: map<GameState, nat>,
                frontera0: seq<Entry<GameState>>, contador0: nat)
    returns (pred: map<GameState, Option<(GameState, Dir)>>, mejor: map<GameState, nat>,
             frontera: seq<Entry<GameState>>, contador: nat)
    requires Grid(m) && Tables(pred0, mejor0, frontera0, inicial, m)
    requires estado in pred0 && mejor0[estado] <= g
    requires forall i | 0 <= i < |sucesores| :: Step(estado, m, sucesores[i].1) == Some(sucesores[i].0)
    ensures Tables(pred, mejor, frontera, inicial, m)
  {
    pred, mejor, frontera, contador := pred0, mejor0, frontera0, contador0;
    for i := 0 to |sucesores|
      invariant Tables(pred, mejor, frontera, inicial, m)
      invariant estado in pred && mejor[estado] <= g
    {
      pred, mejor, frontera, contador := Consider(m, inicial, salida, estado, g, sucesores[i].0, sucesores[i].1,
                                                  pred, mejor, frontera, contador);
    }
  }

  /** encontrar_camino_optimo, cut off after `fuel` pops.  A returned action list,
      played from the start, collects every diamond and ends on the exit. */
  method FindOptimalPath(m: seq<seq<int>>, inicial: GameState, salida: Pos, fuel: nat)
    returns (res: SearchOutcome)
    requires Grid(m) && StonesInBounds(inicial, m)
    ensures res.Path? ==>
      var fin := Replay(inicial, m, res.acciones);
      fin.Some? && AtGoal(fin.value, salida)
  {
    var orden0 := ListOf(inicial.remainingDiamonds);
    var h0 := Heuristica(inicial, salida, orden0);
    var frontera: seq<Entry<GameState>> := [Entry(h0, 0, 0, inicial)];
    var contador := 1;
    var mejor: map<GameState, nat> := map[inicial := 0];
    var pred: map<GameState, Option<(GameState, Dir)>> := map[inicial := None];
    var pasos := 0;
    while frontera != [] && pasos < fuel
      invariant Tables(pred, mejor, frontera, inicial, m)
      decreases fuel - pasos
    {
      pasos := pasos + 1;
      var actual, resto := PopMin(frontera);
      RestInHeap(frontera, actual, resto);
      frontera := resto;
      var estado := actual.state;
      if |estado.remainingDiamonds| == 0 && estado.player == salida {
        var acciones := WalkBack(pred, mejor, inicial, m, estado);
        return Path(acciones);
      }
      var sucesores := GenerateSuccessors(estado, m);
      SuccessorsComplete(estado, m);
      assert forall i | 0 <= i < |sucesores| :: sucesores[i] in sucesores;
      pred, mejor, frontera, contador := Expand(m, inicial, salida, estado, actual.g, sucesores, pred, mejor,
                                                frontera, contador);
    }
    if frontera == [] {
      return NoPath;
    }
    return OutOfFuel;
  }
}
