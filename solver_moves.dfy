/** solver.py's vecinos: the successors of a state, one per move that the map and the
    state allow, tried in the order arriba, abajo, izquierda, derecha. */
module SolverMoves {
  import opened Wrappers
  import opened GridGeometry
  import opened SolverState

  /** The map as parse_level returns it: at least one row, and every row as long as the
      first (vecinos reads `len(mapa[0])` as the width). */
  predicate Grid(mapa: seq<seq<int>>)
  {
    |mapa| > 0 && forall r | 0 <= r < |mapa| :: |mapa[0]| <= |mapa[r]|
  }

  predicate InBounds(mapa: seq<seq<int>>, p: Pos)
    requires Grid(mapa)
  {
    0 <= p.0 < |mapa| && 0 <= p.1 < |mapa[0]|
  }

  function Tile(mapa: seq<seq<int>>, p: Pos): int
    requires Grid(mapa) && InBounds(mapa, p)
  {
    mapa[p.0][p.1]
  }

  /** aplicar_mecanismo: the pressed button or statue is switched on; the door and gate
      sets it is handed are left alone. */
  function ApplyMechanism(botones: map<Pos, bool>, p: Pos): (b: map<Pos, bool>)
    ensures b.Keys == botones.Keys + {p}
    ensures b[p]
    ensures forall q | q in botones && q != p :: b[q] == botones[q]
  {
    botones[p := true]
  }

  /** The part of a move shared by both branches, once the stone (if any) has been
      dealt with: collect a diamond, pick up a key, open a door, trigger spikes, refuse
      the exit while diamonds remain, press a button.  `pushed` selects the stone branch,
      which also refuses an unfilled hole or lava cell judged by the parent's holes. */
  function Enter(e: Estado, mapa: seq<seq<int>>, d: Dir, pushed: bool, rocas: set<Pos>, huecos: set<Pos>): Option<Estado>
    requires Grid(mapa) && InBounds(mapa, Neighbor(e.core.jugador, d))
  {
    var k := e.core;
    var n := Neighbor(k.jugador, d);
    var tile := Tile(mapa, n);
    var diamantes := k.diamantes - {n};
    var pickUp := tile == 3 && n in k.llavesPos && k.keys == 0;
    var llavesPos := if pickUp then k.llavesPos - {n} else k.llavesPos;
    var keys1 := if pickUp then 1 else k.keys;
    var opens := n in k.puertas && keys1 > 0;
    var puertas := if opens then k.puertas - {n} else k.puertas;
    var keys := if opens then 0 else keys1;
    if tile == 7 && n in k.pinchosActivados then None
    else
      var pinchos := if tile == 7 then k.pinchosActivados + {n} else k.pinchosActivados;
      if pushed && (tile == 9 || tile == 10) && n !in k.huecosRellenos then None
      else if tile == 8 && diamantes != {} then None
      else
        var botones := if tile == 12 || tile == 13 then ApplyMechanism(k.botones, n)
                       else k.botones;
        Some(NewEstado(n, diamantes, llavesPos, keys, puertas, pinchos, rocas, huecos, botones, Some(e), Some(d)))
  }

  /** The stone branch: the cell beyond must be inside the map, not wall or gate, free of
      stones and not a door.  The stone fills an unfilled hole, sinks in unfilled lava,
      or else lands there. */
  function Push(e: Estado, mapa: seq<seq<int>>, d: Dir): Option<Estado>
    requires Grid(mapa) && InBounds(mapa, Neighbor(e.core.jugador, d))
  {
    var k := e.core;
    var n := Neighbor(k.jugador, d);
    var s := Neighbor(n, d);
    if !InBounds(mapa, s) then None
    else
      var ts := Tile(mapa, s);
      if ts == 1 || ts == 11 || s in k.rocas || s in k.puertas then None
      else
        var rocas := k.rocas - {n};
        if ts == 9 && s !in k.huecosRellenos then Enter(e, mapa, d, true, rocas, k.huecosRellenos + {s})
        else if ts == 10 && s !in k.huecosRellenos then Enter(e, mapa, d, true, rocas, k.huecosRellenos)
        else Enter(e, mapa, d, true, rocas + {s}, k.huecosRellenos)
  }

  /** One iteration of vecinos' loop: the successor in direction `d`, or None where the
      loop `continue`s. */
  function Move(e: Estado, mapa: seq<seq<int>>, d: Dir): Option<Estado>
    requires Grid(mapa)
  {
    var k := e.core;
    var n := Neighbor(k.jugador, d);
    if !InBounds(mapa, n) then None
    else
      var tile := Tile(mapa, n);
      if tile == 1 || tile == 11 then None
      else if n in k.puertas && k.keys == 0 then None
      else if n in k.rocas then Push(e, mapa, d)
      else if (tile == 9 || tile == 10) && n !in k.huecosRellenos then None
      else Enter(e, mapa, d, false, k.rocas, k.huecosRellenos)
  }

  /** The successors vecinos lists for the first `i` moves. */
  function SuccessorsUpTo(e: Estado, mapa: seq<seq<int>>, i: nat): seq<(Dir, Estado)>
    requires Grid(mapa) && i <= |Moves|
  {
    if i == 0 then []
    else
      SuccessorsUpTo(e, mapa, i - 1)
      + match Move(e, mapa, Moves[i - 1]) case None => [] case Some(t) => [(Moves[i - 1], t)]
  }

  function Successors(e: Estado, mapa: seq<seq<int>>): seq<(Dir, Estado)>
    requires Grid(mapa)
  {
    SuccessorsUpTo(e, mapa, |Moves|)
  }

  /** The common tail of vecinos' two branches: from the set copies to the new
      `Estado`, with its `continue`s. */
  method EnterCell(e: Estado, mapa: seq<seq<int>>, d: Dir, pushed: bool, nuevasRocas: set<Pos>, nuevosHuecos: set<Pos>)
    returns (hijo: Option<Estado>)
    requires Grid(mapa) && InBounds(mapa, Neighbor(e.core.jugador, d))
    ensures hijo == Enter(e, mapa, d, pushed, nuevasRocas, nuevosHuecos)
  {
    var (rn, cn) := Neighbor(e.core.jugador, d);
    var tile := mapa[rn][cn];
    var nuevasDiamantes := e.core.diamantes;
    var nuevasLlavesPos := e.core.llavesPos;
    var nuevasLlaves := e.core.keys;
    var nuevosPuertas := e.core.puertas;
    var nuevosPinchos := e.core.pinchosActivados;
    var nuevosBotones := e.core.botones;
    if (rn, cn) in nuevasDiamantes {
      nuevasDiamantes := nuevasDiamantes - {(rn, cn)};
    }
    if tile == 3 && (rn, cn) in nuevasLlavesPos {
      if nuevasLlaves == 0 {
        nuevasLlaves := 1;
        nuevasLlavesPos := nuevasLlavesPos - {(rn, cn)};
      }
    }
    if (rn, cn) in e.core.puertas && nuevasLlaves > 0 {
      nuevosPuertas := nuevosPuertas - {(rn, cn)};
      nuevasLlaves := 0;
    }
    if tile == 7 && (rn, cn) !in e.core.pinchosActivados {
      nuevosPinchos := nuevosPinchos + {(rn, cn)};
    } else if tile == 7 {
      return None;
    }
    if pushed && tile == 9 && (rn, cn) !in e.core.huecosRellenos {
      return None;
    }
    if pushed && tile == 10 && (rn, cn) !in e.core.huecosRellenos {
      return None;
    }
    if tile == 8 && nuevasDiamantes != {} {
      return None;
    }
    if tile == 12 || tile == 13 {
      nuevosBotones := ApplyMechanism(nuevosBotones, (rn, cn));
    }
    ghost var n := Neighbor(e.core.jugador, d);
    assert n == (rn, cn);
    assert nuevasDiamantes == e.core.diamantes - {n};
    assert nuevasLlavesPos == if tile == 3 && n in e.core.llavesPos && e.core.keys == 0 then e.core.llavesPos - {n} else e.core.llavesPos;
    assert nuevosPinchos == if tile == 7 then e.core.pinchosActivados + {n} else e.core.pinchosActivados;
    ghost var keys1 := if tile == 3 && n in e.core.llavesPos && e.core.keys == 0 then 1 else e.core.keys;
    assert nuevosPuertas == if n in e.core.puertas && keys1 > 0 then e.core.puertas - {n} else e.core.puertas;
    assert nuevasLlaves == if n in e.core.puertas && keys1 > 0 then 0 else keys1;
    assert nuevosBotones == if tile == 12 || tile == 13 then ApplyMechanism(e.core.botones, n) else e.core.botones;
    hijo := Some(NewEstado((rn, cn), nuevasDiamantes, nuevasLlavesPos, nuevasLlaves, nuevosPuertas,
                           nuevosPinchos, nuevasRocas, nuevosHuecos, nuevosBotones, Some(e), Some(d)));
  }

  /** The stone branch of vecinos' loop body. */
  method PushStone(e: Estado, mapa: seq<seq<int>>, d: Dir) returns (hijo: Option<Estado>)
    requires Grid(mapa) && InBounds(mapa, Neighbor(e.core.jugador, d))
    ensures hijo == Push(e, mapa, d)
  {
    var filas, cols := |mapa|, |mapa[0]|;
    var (rn, cn) := Neighbor(e.core.jugador, d);
    var (dr, dc) := Delta(d);
    var rs, cs := rn + dr, cn + dc;
    if !(0 <= rs < filas && 0 <= cs < cols) {
      return None;
    }
    var tileSiguiente := mapa[rs][cs];
    if tileSiguiente == 1 || tileSiguiente == 11 {
      return None;
    }
    if (rs, cs) in e.core.rocas {
      return None;
    }
    if (rs, cs) in e.core.puertas && e.core.keys == 0 {
      return None;
    }
    if (rs, cs) in e.core.puertas {
      return None;
    }
    var nuevasRocas := e.core.rocas - {(rn, cn)};
    var nuevosHuecos := e.core.huecosRellenos;
    if tileSiguiente == 9 && (rs, cs) !in e.core.huecosRellenos {
      nuevosHuecos := nuevosHuecos + {(rs, cs)};
    } else if tileSiguiente == 10 && (rs, cs) !in e.core.huecosRellenos {
    } else {
      nuevasRocas := nuevasRocas + {(rs, cs)};
    }
    hijo := EnterCell(e, mapa, d, true, nuevasRocas, nuevosHuecos);
  }

  /** The loop body of vecinos for one direction: None where the loop `continue`s. */
  method TryMove(e: Estado, mapa: seq<seq<int>>, d: Dir) returns (hijo: Option<Estado>)
    requires Grid(mapa)
    ensures hijo == Move(e, mapa, d)
  {
    var filas, cols := |mapa|, |mapa[0]|;
    var (r0, c0) := e.core.jugador;
    var (dr, dc) := Delta(d);
    var rn, cn := r0 + dr, c0 + dc;
    if !(0 <= rn < filas && 0 <= cn < cols) {
      return None;
    }
    var tile := mapa[rn][cn];
    if tile == 1 || tile == 11 {
      return None;
    }
    if (rn, cn) in e.core.puertas && e.core.keys == 0 {
      return None;
    }
    if (rn, cn) in e.core.rocas {
      hijo := PushStone(e, mapa, d);
      return;
    }
    if tile == 9 && (rn, cn) !in e.core.huecosRellenos {
      return None;
    }
    if tile == 10 && (rn, cn) !in e.core.huecosRellenos {
      return None;
    }
    hijo := EnterCell(e, mapa, d, false, e.core.rocas, e.core.huecosRellenos);
  }

  /** vecinos */
  method Vecinos(e: Estado, mapa: seq<seq<int>>) returns (sucesores: seq<(Dir, Estado)>)
    requires Grid(mapa)
    ensures sucesores == Successors(e, mapa)
  {
    sucesores := [];
    for i := 0 to |Moves|
      invariant sucesores == SuccessorsUpTo(e, mapa, i)
    {
      var hijo := TryMove(e, mapa, Moves[i]);
      if hijo.Some? {
        sucesores := sucesores + [(Moves[i], hijo.value)];
      }
    }
  }

  // ------------------------------------------------------------- properties

  /** Every listed successor is the move of its action, one per direction at most. */
  lemma {:induction false} SuccessorsAreMoves(e: Estado, mapa: seq<seq<int>>, i: nat)
    requires Grid(mapa) && i <= |Moves|
    ensures |SuccessorsUpTo(e, mapa, i)| <= i
    ensures forall p | 0 <= p < |SuccessorsUpTo(e, mapa, i)| ::
      Move(e, mapa, SuccessorsUpTo(e, mapa, i)[p].0) == Some(SuccessorsUpTo(e, mapa, i)[p].1)
  {
    if i > 0 {
      SuccessorsAreMoves(e, mapa, i - 1);
    }
  }

  /** A direction whose move succeeds is listed among the first `i` when it is one of
      the first `i` moves. */
  lemma {:induction false} MovesAreSuccessors(e: Estado, mapa: seq<seq<int>>, i: nat, j: nat)
    requires Grid(mapa) && j < i <= |Moves| && Move(e, mapa, Moves[j]).Some?
    ensures (Moves[j], Move(e, mapa, Moves[j]).value) in SuccessorsUpTo(e, mapa, i)
  {
    if j < i - 1 {
      MovesAreSuccessors(e, mapa, i - 1, j);
    }
  }

  /** At most four successors, and exactly the moves that succeed. */
  lemma SuccessorsComplete(e: Estado, mapa: seq<seq<int>>)
    requires Grid(mapa)
    ensures |Successors(e, mapa)| <= 4
    ensures forall d, t :: (d, t) in Successors(e, mapa) <==> Move(e, mapa, d) == Some(t)
  {
    SuccessorsAreMoves(e, mapa, |Moves|);
    forall d, t | Move(e, mapa, d) == Some(t)
      ensures (d, t) in Successors(e, mapa)
    {
      var j := if d == Arriba then 0 else if d == Abajo then 1 else if d == Izquierda then 2 else 3;
      MovesAreSuccessors(e, mapa, |Moves|, j);
    }
  }

  /** The player lands on the in-bounds neighbour in direction `d`, never on a wall or a
      gate, and the successor records its parent and action. */
  lemma MoveTarget(e: Estado, mapa: seq<seq<int>>, d: Dir)
    requires Grid(mapa) && Move(e, mapa, d).Some?
    ensures var t := Move(e, mapa, d).value;
      t.core.jugador == Neighbor(e.core.jugador, d)
      && InBounds(mapa, t.core.jugador)
      && Tile(mapa, t.core.jugador) != 1 && Tile(mapa, t.core.jugador) != 11
      && t.parent == Some(e) && t.accion == Some(d)
  {
  }

  /** A door is never entered without a key; entering it with one key opens it and uses
      the key up. */
  lemma DoorRule(e: Estado, mapa: seq<seq<int>>, d: Dir)
    requires Grid(mapa) && Move(e, mapa, d).Some? && e.core.keys in {0, 1}
    requires Neighbor(e.core.jugador, d) in e.core.puertas
    ensures e.core.keys == 1
    ensures var t := Move(e, mapa, d).value;
      t.core.puertas == e.core.puertas - {t.core.jugador} && t.core.keys == 0
  {
  }

  /** The key count stays 0 or 1. */
  lemma KeysStayBinary(e: Estado, mapa: seq<seq<int>>, d: Dir)
    requires Grid(mapa) && Move(e, mapa, d).Some? && e.core.keys in {0, 1}
    ensures Move(e, mapa, d).value.core.keys in {0, 1}
  {
  }

  /** A push moves the stone in front of the player one cell on, except that it
      disappears when that cell is an unfilled hole or unfilled lava; other moves leave
      the stones alone.  The number of stones never grows. */
  lemma StoneRule(e: Estado, mapa: seq<seq<int>>, d: Dir)
    requires Grid(mapa) && Move(e, mapa, d).Some?
    ensures var t := Move(e, mapa, d).value;
      var n := Neighbor(e.core.jugador, d);
      var s := Neighbor(n, d);
      (n in e.core.rocas ==>
        InBounds(mapa, s) && s !in e.core.rocas && s !in e.core.puertas
        && Tile(mapa, s) != 1 && Tile(mapa, s) != 11
        && t.core.rocas == if (Tile(mapa, s) == 9 || Tile(mapa, s) == 10) && s !in e.core.huecosRellenos
                           then e.core.rocas - {n} else e.core.rocas - {n} + {s})
      && (n !in e.core.rocas ==> t.core.rocas == e.core.rocas)
      && |t.core.rocas| <= |e.core.rocas|
  {
    var t := Move(e, mapa, d).value;
    var n := Neighbor(e.core.jugador, d);
    var s := Neighbor(n, d);
    if n in e.core.rocas {
      assert |e.core.rocas - {n}| == |e.core.rocas| - 1;
      assert |e.core.rocas - {n} + {s}| <= |e.core.rocas - {n}| + 1;
    }
  }

  /** A hole is filled exactly when a stone is pushed into it while unfilled; none is
      ever emptied. */
  lemma HoleRule(e: Estado, mapa: seq<seq<int>>, d: Dir)
    requires Grid(mapa) && Move(e, mapa, d).Some?
    ensures var t := Move(e, mapa, d).value;
      var n := Neighbor(e.core.jugador, d);
      var s := Neighbor(n, d);
      e.core.huecosRellenos <= t.core.huecosRellenos
      && (t.core.huecosRellenos != e.core.huecosRellenos ==>
            n in e.core.rocas && InBounds(mapa, s) && Tile(mapa, s) == 9 && s !in e.core.huecosRellenos
            && t.core.huecosRellenos == e.core.huecosRellenos + {s})
      && (n in e.core.rocas && InBounds(mapa, s) && Tile(mapa, s) == 9 && s !in e.core.huecosRellenos ==>
            t.core.huecosRellenos == e.core.huecosRellenos + {s})
  {
  }

  /** Only the entered cell's diamond can be collected, and the exit is entered only
      once every diamond is. */
  lemma DiamondRule(e: Estado, mapa: seq<seq<int>>, d: Dir)
    requires Grid(mapa) && Move(e, mapa, d).Some?
    ensures var t := Move(e, mapa, d).value;
      t.core.diamantes == e.core.diamantes - {t.core.jugador}
      && (Tile(mapa, t.core.jugador) == 8 ==> t.core.diamantes == {})
  {
  }

  /** Spikes fire once: they are entered only while not yet activated, and stay
      activated after. */
  lemma SpikesOneShot(e: Estado, mapa: seq<seq<int>>, d: Dir)
    requires Grid(mapa) && Move(e, mapa, d).Some?
    ensures var t := Move(e, mapa, d).value;
      var n := t.core.jugador;
      e.core.pinchosActivados <= t.core.pinchosActivados
      && (Tile(mapa, n) == 7 ==>
            n !in e.core.pinchosActivados && t.core.pinchosActivados == e.core.pinchosActivados + {n})
      && (Tile(mapa, n) != 7 ==> t.core.pinchosActivados == e.core.pinchosActivados)
  {
  }

  /** Buttons and statues only switch on: the set of mechanism cells is kept when the
      player steps on one, and a pressed one stays pressed. */
  lemma ButtonsOnlySwitchOn(e: Estado, mapa: seq<seq<int>>, d: Dir)
    requires Grid(mapa) && Move(e, mapa, d).Some?
    requires var n := Neighbor(e.core.jugador, d);
      InBounds(mapa, n) && (Tile(mapa, n) == 12 || Tile(mapa, n) == 13) ==> n in e.core.botones
    ensures var t := Move(e, mapa, d).value;
      var before := e.core.botones;
      var after := t.core.botones;
      after.Keys == before.Keys
      && (forall q | q in before && before[q] :: after[q])
      && (Tile(mapa, t.core.jugador) == 12 || Tile(mapa, t.core.jugador) == 13 ==> after[t.core.jugador])
  {
    MoveTarget(e, mapa, d);
    MoveButtons(e, mapa, d);
  }

  lemma MoveButtons(e: Estado, mapa: seq<seq<int>>, d: Dir)
    requires Grid(mapa) && Move(e, mapa, d).Some?
    ensures var t := Move(e, mapa, d).value;
      var n := Neighbor(e.core.jugador, d);
      InBounds(mapa, n)
      && t.core.botones == if Tile(mapa, n) == 12 || Tile(mapa, n) == 13 then ApplyMechanism(e.core.botones, n)
                           else e.core.botones
  {
  }
}
