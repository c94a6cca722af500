/** diamond_rush.py's `GameState` and generar_sucesores with its nested es_transitable. */
module DiamondMoves {
  import opened Wrappers
  import opened GridGeometry
  import SolverParse

  /** The frozen dataclass; its generated equality compares all seven fields. */
  datatype GameState = GameState(
    player: Pos,
    remainingDiamonds: set<Pos>,
    stonePositions: set<Pos>,
    usedSpikes: set<Pos>,
    filledHoles: set<Pos>,
    hasKey: bool,
    openedDoors: set<Pos>)

  /** The level matrix as cargar_nivel returns it: every row reaches the first row's
      width.  An empty matrix has width 0. */
  predicate Grid(m: seq<seq<int>>)
  {
    SolverParse.Rect(m)
  }

  predicate InBounds(m: seq<seq<int>>, p: Pos)
  {
    0 <= p.0 < |m| && 0 <= p.1 < SolverParse.Width(m)
  }

  function Tile(m: seq<seq<int>>, p: Pos): int
    requires Grid(m) && InBounds(m, p)
  {
    m[p.0][p.1]
  }

  /** Every stone is on the board, so `matriz[x][y]` for a stone reads its cell. */
  predicate StonesInBounds(st: GameState, m: seq<seq<int>>)
  {
    forall s | s in st.stonePositions :: InBounds(m, s)
  }

  /** piedra_en_boton: some stone rests on a button (12). */
  predicate StoneOnButton(st: GameState, m: seq<seq<int>>)
    requires Grid(m) && StonesInBounds(st, m)
  {
    exists s | s in st.stonePositions :: Tile(m, s) == 12
  }

  /** es_transitable, with the state's key and opened doors as its last two arguments. */
  predicate Transitable(st: GameState, m: seq<seq<int>>, p: Pos)
    requires Grid(m) && StonesInBounds(st, m)
  {
    if !InBounds(m, p) then false
    else
      var valor := Tile(m, p);
      if p in st.stonePositions then false
      else if valor == 1 || valor == 10 || valor == 13 then false
      else if valor == 11 && !StoneOnButton(st, m) then false
      else if valor == 5 then p in st.openedDoors || st.hasKey
      else if valor == 9 && p !in st.filledHoles then false
      else if valor == 7 && p in st.usedSpikes then false
      else true
  }

  /** The successor in direction `d`, or None when generar_sucesores adds none. */
  function Step(st: GameState, m: seq<seq<int>>, d: Dir): Option<GameState>
    requires Grid(m) && StonesInBounds(st, m)
  {
    var n := Neighbor(st.player, d);
    if !InBounds(m, n) then None
    else if n in st.stonePositions then
      var b := Neighbor(n, d);
      if Transitable(st, m, b) && Tile(m, b) != 5 && Tile(m, b) != 8 then
        var piedras := st.stonePositions - {n};
        var huecos := if Tile(m, b) == 9 then st.filledHoles + {b} else st.filledHoles;
        var piedras2 := if Tile(m, b) == 9 then piedras else piedras + {b};
        var usados1 := if Tile(m, b) == 7 then st.usedSpikes + {b} else st.usedSpikes;
        var usados := if Tile(m, n) == 7 then usados1 + {n} else usados1;
        Some(GameState(n, st.remainingDiamonds, piedras2, usados, huecos, st.hasKey, st.openedDoors))
      else None
    else if Transitable(st, m, n) then
      var diamantes := st.remainingDiamonds - {n};
      var usados := if Tile(m, n) == 7 then st.usedSpikes + {n} else st.usedSpikes;
      var takes := Tile(m, n) == 3 && !st.hasKey;
      var opens := !takes && Tile(m, n) == 5 && n !in st.openedDoors && st.hasKey;
      var llave := if takes then true else if opens then false else st.hasKey;
      var puertas := if opens then st.openedDoors + {n} else st.openedDoors;
      Some(GameState(n, diamantes, st.stonePositions, usados, st.filledHoles, llave, puertas))
    else None
  }

  /** The pairs generar_sucesores lists for the first `i` moves. */
  function SuccessorsUpTo(st: GameState, m: seq<seq<int>>, i: nat): seq<(GameState, Dir)>
    requires Grid(m) && StonesInBounds(st, m) && i <= |Moves|
  {
    if i == 0 then []
    else
      SuccessorsUpTo(st, m, i - 1)
      + match Step(st, m, Moves[i - 1]) case None => [] case Some(t) => [(t, Moves[i - 1])]
  }

  function Successors(st: GameState, m: seq<seq<int>>): seq<(GameState, Dir)>
    requires Grid(m) && StonesInBounds(st, m)
  {
    SuccessorsUpTo(st, m, |Moves|)
  }

  /** The stone branch of the loop body. */
  method PushStone(st: GameState, m: seq<seq<int>>, d: Dir) returns (nuevo: Option<GameState>)
    requires Grid(m) && StonesInBounds(st, m)
    requires InBounds(m, Neighbor(st.player, d)) && Neighbor(st.player, d) in st.stonePositions
    ensures nuevo == Step(st, m, d)
  {
    var (nx, ny) := Neighbor(st.player, d);
    var (dx, dy) := Delta(d);
    var sx, sy := nx + dx, ny + dy;
    if !(Transitable(st, m, (sx, sy)) && m[sx][sy] != 5 && m[sx][sy] != 8) {
      return None;
    }
    var nuevasPiedras := st.stonePositions - {(nx, ny)};
    var nuevosHuecos := st.filledHoles;
    if m[sx][sy] == 9 {
      nuevosHuecos := nuevosHuecos + {(sx, sy)};
    } else {
      nuevasPiedras := nuevasPiedras + {(sx, sy)};
    }
    var nuevosPinchosUsados := st.usedSpikes;
    if m[sx][sy] == 7 {
      nuevosPinchosUsados := nuevosPinchosUsados + {(sx, sy)};
    }
    if m[nx][ny] == 7 {
      nuevosPinchosUsados := nuevosPinchosUsados + {(nx, ny)};
    }
    nuevo := Some(GameState((nx, ny), st.remainingDiamonds, nuevasPiedras, nuevosPinchosUsados, nuevosHuecos,
                            st.hasKey, st.openedDoors));
  }

  /** The plain branch of the loop body. */
  method WalkInto(st: GameState, m: seq<seq<int>>, d: Dir) returns (nuevo: Option<GameState>)
    requires Grid(m) && StonesInBounds(st, m)
    requires InBounds(m, Neighbor(st.player, d)) && Neighbor(st.player, d) !in st.stonePositions
    ensures nuevo == Step(st, m, d)
  {
    var (nx, ny) := Neighbor(st.player, d);
    if !Transitable(st, m, (nx, ny)) {
      return None;
    }
    var nuevosDiamantes := st.remainingDiamonds;
    if (nx, ny) in st.remainingDiamonds {
      nuevosDiamantes := nuevosDiamantes - {(nx, ny)};
    }
    var nuevosPinchosUsados := st.usedSpikes;
    if m[nx][ny] == 7 {
      nuevosPinchosUsados := nuevosPinchosUsados + {(nx, ny)};
    }
    var nuevaLlave := st.hasKey;
    var nuevasPuertas := st.openedDoors;
    if m[nx][ny] == 3 && !st.hasKey {
      nuevaLlave := true;
    } else if m[nx][ny] == 5 {
      if (nx, ny) !in st.openedDoors && st.hasKey {
        nuevasPuertas := nuevasPuertas + {(nx, ny)};
        nuevaLlave := false;
      }
    }
    assert nuevosDiamantes == st.remainingDiamonds - {(nx, ny)};
    nuevo := Some(GameState((nx, ny), nuevosDiamantes, st.stonePositions, nuevosPinchosUsados, st.filledHoles,
                            nuevaLlave, nuevasPuertas));
  }

  /** generar_sucesores */
  method GenerateSuccessors(st: GameState, m: seq<seq<int>>) returns (sucesores: seq<(GameState, Dir)>)
    requires Grid(m) && StonesInBounds(st, m)
    ensures sucesores == Successors(st, m)
  {
    sucesores := [];
    for i := 0 to |Moves|
      invariant sucesores == SuccessorsUpTo(st, m, i)
    {
      var d := Moves[i];
      var (nx, ny) := Neighbor(st.player, d);
      var nuevo: Option<GameState> := None;
      if 0 <= nx < |m| && 0 <= ny < SolverParse.Width(m) {
        if (nx, ny) in st.stonePositions {
          nuevo := PushStone(st, m, d);
        } else {
          nuevo := WalkInto(st, m, d);
        }
      }
      if nuevo.Some? {
        sucesores := sucesores + [(nuevo.value, d)];
      }
    }
  }

  // ------------------------------------------------------------- properties

  /** es_transitable is false exactly for: off the board, a stone, a wall, lava or a
      statue (1, 10, 13), a gate (11) with no stone on a button, a closed door (5)
      without the key, an unfilled hole (9), a used spike (7). */
  lemma TransitableIff(st: GameState, m: seq<seq<int>>, p: Pos)
    requires Grid(m) && StonesInBounds(st, m)
    ensures Transitable(st, m, p) <==>
      InBounds(m, p) && p !in st.stonePositions
      && Tile(m, p) !in {1, 10, 13}
      && !(Tile(m, p) == 11 && !StoneOnButton(st, m))
      && !(Tile(m, p) == 5 && p !in st.openedDoors && !st.hasKey)
      && !(Tile(m, p) == 9 && p !in st.filledHoles)
      && !(Tile(m, p) == 7 && p in st.usedSpikes)
  {
  }

  /** A door cell that nothing else blocks is passable exactly when it is already open
      or the key is held. */
  lemma DoorPassable(st: GameState, m: seq<seq<int>>, p: Pos)
    requires Grid(m) && StonesInBounds(st, m)
    requires InBounds(m, p) && Tile(m, p) == 5 && p !in st.stonePositions
    ensures Transitable(st, m, p) <==> p in st.openedDoors || st.hasKey
  {
  }

  /** Every listed successor is the step of its action, at most one per direction. */
  lemma {:induction false} SuccessorsAreSteps(st: GameState, m: seq<seq<int>>, i: nat)
    requires Grid(m) && StonesInBounds(st, m) && i <= |Moves|
    ensures |SuccessorsUpTo(st, m, i)| <= i
    ensures forall p | 0 <= p < |SuccessorsUpTo(st, m, i)| ::
      Step(st, m, SuccessorsUpTo(st, m, i)[p].1) == Some(SuccessorsUpTo(st, m, i)[p].0)
  {
    if i > 0 {
      SuccessorsAreSteps(st, m, i - 1);
    }
  }

  lemma {:induction false} StepsAreSuccessors(st: GameState, m: seq<seq<int>>, i: nat, j: nat)
    requires Grid(m) && StonesInBounds(st, m) && j < i <= |Moves| && Step(st, m, Moves[j]).Some?
    ensures (Step(st, m, Moves[j]).value, Moves[j]) in SuccessorsUpTo(st, m, i)
  {
    if j < i - 1 {
      StepsAreSuccessors(st, m, i - 1, j);
    }
  }

  /** At most four successors, and exactly the steps that succeed. */
  lemma SuccessorsComplete(st: GameState, m: seq<seq<int>>)
    requires Grid(m) && StonesInBounds(st, m)
    ensures |Successors(st, m)| <= 4
    ensures forall t, d :: (t, d) in Successors(st, m) <==> Step(st, m, d) == Some(t)
  {
    SuccessorsAreSteps(st, m, |Moves|);
    forall t, d | Step(st, m, d) == Some(t)
      ensures (t, d) in Successors(st, m)
    {
      var j := if d == Arriba then 0 else if d == Abajo then 1 else if d == Izquierda then 2 else 3;
      StepsAreSuccessors(st, m, |Moves|, j);
    }
  }

  /** A push needs the cell beyond the stone passable and neither a door nor the exit.
      The player takes the stone's cell; the stone moves on, or, on a hole, fills it.
      Diamonds, key and doors are untouched. */
  lemma PushRule(st: GameState, m: seq<seq<int>>, d: Dir)
    requires Grid(m) && StonesInBounds(st, m) && Step(st, m, d).Some?
    requires Neighbor(st.player, d) in st.stonePositions
    ensures var t := Step(st, m, d).value;
      var n := Neighbor(st.player, d);
      var b := Neighbor(n, d);
      Transitable(st, m, b) && Tile(m, b) != 5 && Tile(m, b) != 8
      && t.player == n
      && (Tile(m, b) == 9 ==> t.stonePositions == st.stonePositions - {n} && t.filledHoles == st.filledHoles + {b})
      && (Tile(m, b) != 9 ==> t.stonePositions == st.stonePositions - {n} + {b} && t.filledHoles == st.filledHoles)
      && t.remainingDiamonds == st.remainingDiamonds && t.hasKey == st.hasKey && t.openedDoors == st.openedDoors
  {
  }

  /** A plain move enters a passable cell, collects its diamond, picks up a key when none
      is held, and opens a closed door with the key, using it up. */
  lemma WalkRule(st: GameState, m: seq<seq<int>>, d: Dir)
    requires Grid(m) && StonesInBounds(st, m) && Step(st, m, d).Some?
    requires Neighbor(st.player, d) !in st.stonePositions
    ensures var t := Step(st, m, d).value;
      var n := Neighbor(st.player, d);
      Transitable(st, m, n) && t.player == n
      && t.remainingDiamonds == st.remainingDiamonds - {n}
      && t.stonePositions == st.stonePositions && t.filledHoles == st.filledHoles
      && (Tile(m, n) == 3 ==> t.hasKey)
      && (Tile(m, n) == 5 && n !in st.openedDoors && st.hasKey ==> !t.hasKey && t.openedDoors == st.openedDoors + {n})
      && (Tile(m, n) != 3 && Tile(m, n) != 5 ==> t.hasKey == st.hasKey && t.openedDoors == st.openedDoors)
  {
  }

  /** es_transitable refuses an unfilled hole, and a hole is filled only by pushing a
      stone onto it: a game that starts with no filled hole never gets one, and no push
      ever lands on a hole. */
  lemma HolesStayEmpty(st: GameState, m: seq<seq<int>>, d: Dir)
    requires Grid(m) && StonesInBounds(st, m) && Step(st, m, d).Some?
    requires st.filledHoles == {}
    ensures Step(st, m, d).value.filledHoles == {}
  {
    var n := Neighbor(st.player, d);
    if n in st.stonePositions {
      PushRule(st, m, d);
    }
  }

  /** The stones stay on the board, so every reachable state can be expanded. */
  lemma StonesStayOnBoard(st: GameState, m: seq<seq<int>>, d: Dir)
    requires Grid(m) && StonesInBounds(st, m) && Step(st, m, d).Some?
    ensures StonesInBounds(Step(st, m, d).value, m)
  {
    if Neighbor(st.player, d) in st.stonePositions {
      PushRule(st, m, d);
    }
  }

  /** While no hole is filled, no stone is lost. */
  lemma StonesKept(st: GameState, m: seq<seq<int>>, d: Dir)
    requires Grid(m) && StonesInBounds(st, m) && Step(st, m, d).Some?
    requires st.filledHoles == {}
    ensures |Step(st, m, d).value.stonePositions| == |st.stonePositions|
  {
    var n := Neighbor(st.player, d);
    if n in st.stonePositions {
      PushRule(st, m, d);
      var b := Neighbor(n, d);
      assert b !in st.stonePositions - {n};
      assert |st.stonePositions - {n}| == |st.stonePositions| - 1;
    }
  }

  /** Used spikes stay used, and the cell entered is marked when it is a spike. */
  lemma SpikesGrow(st: GameState, m: seq<seq<int>>, d: Dir)
    requires Grid(m) && StonesInBounds(st, m) && Step(st, m, d).Some?
    ensures var t := Step(st, m, d).value;
      st.usedSpikes <= t.usedSpikes && (Tile(m, t.player) == 7 ==> t.player in t.usedSpikes)
  {
  }
}
