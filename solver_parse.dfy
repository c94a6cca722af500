/** solver.py's parse_level, from the already tokenised rows of matriz_clasificacion.txt:
    a row-major scan that collects cells by code, zeroes the player's cell and builds the
    initial `Estado`. */
module SolverParse {
  import opened Wrappers
  import opened GridGeometry
  import opened SolverState

  /** The exception a row shorter than the first one raises. */
  datatype ParseError = IndexError

  /** `(mapa, estado_inicial, coord_salida)`.  `inicial` is None when the level has no
      player: Python then builds an `Estado` whose `jugador` is None, which no later step
      can use. */
  datatype Level = Level(mapa: seq<seq<int>>, inicial: Option<Estado>, salida: Option<Pos>)

  /** `ancho`: the length of the first row. */
  function Width(rows: seq<seq<int>>): nat
  {
    if |rows| > 0 then |rows[0]| else 0
  }

  /** Every row reaches column `ancho`, so the scan never indexes past a row's end. */
  predicate Rect(rows: seq<seq<int>>)
  {
    forall r | 0 <= r < |rows| :: Width(rows) <= |rows[r]|
  }

  /** A cell the scan visits. */
  predicate Cell(rows: seq<seq<int>>, w: nat, i: int, j: int)
  {
    0 <= i < |rows| && 0 <= j < w && j < |rows[i]|
  }

  /** The scan has visited rows before `r` and the first `c` cells of row `r`. */
  predicate InPrefix(w: nat, r: int, c: int, i: int, j: int)
  {
    0 <= i && 0 <= j < w && (i < r || (i == r && j < c))
  }

  /** `s` holds exactly the visited cells whose code is `code`. */
  ghost predicate SetSummarises(s: set<Pos>, rows: seq<seq<int>>, w: nat, r: int, c: int, code: int)
  {
    forall i, j :: (i, j) in s <==> Cell(rows, w, i, j) && InPrefix(w, r, c, i, j) && rows[i][j] == code
  }

  /** `m` maps exactly the visited cells holding `code`, each to False. */
  ghost predicate MapSummarises(m: map<Pos, bool>, rows: seq<seq<int>>, w: nat, r: int, c: int, code: int)
  {
    (forall i, j :: (i, j) in m <==> Cell(rows, w, i, j) && InPrefix(w, r, c, i, j) && rows[i][j] == code)
    && forall q | q in m :: !m[q]
  }

  /** `o` is the last visited cell holding `code`, or None when there is none. */
  ghost predicate LastSummarises(o: Option<Pos>, rows: seq<seq<int>>, w: nat, r: int, c: int, code: int)
  {
    match o
    case None =>
      forall i, j | Cell(rows, w, i, j) && InPrefix(w, r, c, i, j) :: rows[i][j] != code
    case Some(p) =>
      Cell(rows, w, p.0, p.1) && InPrefix(w, r, c, p.0, p.1) && rows[p.0][p.1] == code
      && forall i, j | Cell(rows, w, i, j) && InPrefix(w, r, c, i, j) && rows[i][j] == code ::
           (i, j) == p || PosLess((i, j), p)
  }

  lemma SetStep(s: set<Pos>, rows: seq<seq<int>>, w: nat, r: int, c: int, code: int)
    requires Cell(rows, w, r, c) && SetSummarises(s, rows, w, r, c, code)
    ensures SetSummarises(if rows[r][c] == code then s + {(r, c)} else s, rows, w, r, c + 1, code)
  {
  }

  lemma MapStep(m: map<Pos, bool>, rows: seq<seq<int>>, w: nat, r: int, c: int, code: int)
    requires Cell(rows, w, r, c) && MapSummarises(m, rows, w, r, c, code)
    ensures MapSummarises(if rows[r][c] == code then m[(r, c) := false] else m, rows, w, r, c + 1, code)
  {
  }

  lemma LastStep(o: Option<Pos>, rows: seq<seq<int>>, w: nat, r: int, c: int, code: int)
    requires Cell(rows, w, r, c) && LastSummarises(o, rows, w, r, c, code)
    ensures LastSummarises(if rows[r][c] == code then Some((r, c)) else o, rows, w, r, c + 1, code)
  {
  }

  /** Finishing row `r` is starting row `r + 1`. */
  lemma RowDone(rows: seq<seq<int>>, w: nat, r: int)
    ensures forall i, j :: InPrefix(w, r, w, i, j) == InPrefix(w, r + 1, 0, i, j)
  {
  }

  /** A row after the scan: cells before column `c` that held the player read 0. */
  function ClearRow(row: seq<int>, c: int): (out: seq<int>)
    ensures |out| == |row|
    ensures forall j | 0 <= j < |row| :: out[j] == (if j < c && row[j] == 4 then 0 else row[j])
  {
    seq(|row|, j requires 0 <= j < |row| => if j < c && row[j] == 4 then 0 else row[j])
  }

  /** Visiting column `c` zeroes it when it held the player. */
  lemma ClearRowStep(row: seq<int>, c: nat)
    requires c < |row|
    ensures ClearRow(row, c + 1) == if row[c] == 4 then ClearRow(row, c)[c := 0] else ClearRow(row, c)
  {
  }

  /** `mapa` after the scan has finished the rows before `r`: those rows are cleared of
      the player, the others are still as read. */
  ghost predicate RowsCleared(mapa: seq<seq<int>>, rows: seq<seq<int>>, w: nat, r: nat)
  {
    |mapa| == |rows|
    && forall i | 0 <= i < |rows| :: mapa[i] == if i < r then ClearRow(rows[i], w) else rows[i]
  }

  lemma RowsClearedStep(mapa: seq<seq<int>>, rows: seq<seq<int>>, w: nat, r: nat, fila: seq<int>)
    requires r < |rows| && RowsCleared(mapa, rows, w, r) && fila == ClearRow(rows[r], w)
    ensures RowsCleared(mapa[r := fila], rows, w, r + 1)
  {
  }

  /** The rows before `r` all reach column `w`. */
  predicate WideRows(rows: seq<seq<int>>, w: nat, r: nat)
    requires r <= |rows|
  {
    forall i | 0 <= i < r :: w <= |rows[i]|
  }

  /** Buttons (12) and statues (13) merged, each False. */
  ghost predicate ButtonsSummarise(m: map<Pos, bool>, rows: seq<seq<int>>, w: nat)
  {
    (forall i, j :: (i, j) in m <==> Cell(rows, w, i, j) && (rows[i][j] == 12 || rows[i][j] == 13))
    && forall q | q in m :: !m[q]
  }

  /** What parse_level returns for well-shaped rows. */
  ghost predicate ParsedFrom(rows: seq<seq<int>>, lvl: Level)
  {
    var w := Width(rows);
    var n := |rows|;
    |lvl.mapa| == n
    && (forall i | 0 <= i < n :: lvl.mapa[i] == ClearRow(rows[i], w))
    && LastSummarises(lvl.salida, rows, w, n, 0, 8)
    && match lvl.inicial
       case None => LastSummarises(None, rows, w, n, 0, 4)
       case Some(e) =>
         LastSummarises(Some(e.core.jugador), rows, w, n, 0, 4)
         && e.parent.None? && e.accion.None?
         && e.core.keys == 0 && e.core.pinchosActivados == {} && e.core.huecosRellenos == {}
         && SetSummarises(e.core.diamantes, rows, w, n, 0, 2)
         && SetSummarises(e.core.llavesPos, rows, w, n, 0, 3)
         && SetSummarises(e.core.puertas, rows, w, n, 0, 5)
         && SetSummarises(e.core.rocas, rows, w, n, 0, 6)
         && ButtonsSummarise(e.core.botones, rows, w)
  }

  /** `{**botones, **estatuas}` of the two finished dictionaries. */
  lemma MergeButtons(b: map<Pos, bool>, s: map<Pos, bool>, rows: seq<seq<int>>, w: nat)
    requires MapSummarises(b, rows, w, |rows|, 0, 12) && MapSummarises(s, rows, w, |rows|, 0, 13)
    ensures ButtonsSummarise(b + s, rows, w)
  {
    forall i, j
      ensures (i, j) in b + s <==> Cell(rows, w, i, j) && (rows[i][j] == 12 || rows[i][j] == 13)
    {
      assert (i, j) in b + s <==> (i, j) in b || (i, j) in s;
    }
    forall q | q in b + s
      ensures !(b + s)[q]
    {
      if q in s {
        assert (b + s)[q] == s[q];
      } else {
        assert (b + s)[q] == b[q];
      }
    }
  }

  /** The collections parse_level fills while it scans.  The sets of spikes, holes, lava
      and gates it also collects are dropped by the function itself, so they are not kept. */
  datatype Acc = Acc(
    jugador: Option<Pos>,
    diamantes: set<Pos>,
    llaves: set<Pos>,
    puertas: set<Pos>,
    rocas: set<Pos>,
    botones: map<Pos, bool>,
    estatuas: map<Pos, bool>,
    salida: Option<Pos>)

  ghost predicate Summarises(acc: Acc, rows: seq<seq<int>>, w: nat, r: int, c: int)
  {
    LastSummarises(acc.jugador, rows, w, r, c, 4)
    && LastSummarises(acc.salida, rows, w, r, c, 8)
    && SetSummarises(acc.diamantes, rows, w, r, c, 2)
    && SetSummarises(acc.llaves, rows, w, r, c, 3)
    && SetSummarises(acc.puertas, rows, w, r, c, 5)
    && SetSummarises(acc.rocas, rows, w, r, c, 6)
    && MapSummarises(acc.botones, rows, w, r, c, 12)
    && MapSummarises(acc.estatuas, rows, w, r, c, 13)
  }

  /** The `if`/`elif` chain on one cell's code. */
  function Visit(acc: Acc, codigo: int, p: Pos): Acc
  {
    if codigo == 4 then acc.(jugador := Some(p))
    else if codigo == 2 then acc.(diamantes := acc.diamantes + {p})
    else if codigo == 3 then acc.(llaves := acc.llaves + {p})
    else if codigo == 5 then acc.(puertas := acc.puertas + {p})
    else if codigo == 6 then acc.(rocas := acc.rocas + {p})
    else if codigo == 8 then acc.(salida := Some(p))
    else if codigo == 12 then acc.(botones := acc.botones[p := false])
    else if codigo == 13 then acc.(estatuas := acc.estatuas[p := false])
    else acc
  }

  /** Visiting cell `(r, c)` extends the collection its code selects by that cell. */
  lemma StepSummarises(acc: Acc, rows: seq<seq<int>>, w: nat, r: int, c: int)
    requires Cell(rows, w, r, c) && Summarises(acc, rows, w, r, c)
    ensures Summarises(Visit(acc, rows[r][c], (r, c)), rows, w, r, c + 1)
  {
    LastStep(acc.jugador, rows, w, r, c, 4);
    LastStep(acc.salida, rows, w, r, c, 8);
    SetStep(acc.diamantes, rows, w, r, c, 2);
    SetStep(acc.llaves, rows, w, r, c, 3);
    SetStep(acc.puertas, rows, w, r, c, 5);
    SetStep(acc.rocas, rows, w, r, c, 6);
    MapStep(acc.botones, rows, w, r, c, 12);
    MapStep(acc.estatuas, rows, w, r, c, 13);
  }

  /** Before the scan every collection is empty. */
  lemma StartSummarises(rows: seq<seq<int>>, w: nat)
    ensures Summarises(Acc(None, {}, {}, {}, {}, map[], map[], None), rows, w, 0, 0)
  {
  }

  lemma RowDoneSummarises(acc: Acc, rows: seq<seq<int>>, w: nat, r: int)
    requires Summarises(acc, rows, w, r, w)
    ensures Summarises(acc, rows, w, r + 1, 0)
  {
    RowDone(rows, w, r);
  }

  /** The level the finished scan describes. */
  lemma Finish(acc: Acc, rows: seq<seq<int>>, mapa: seq<seq<int>>, inicial: Option<Estado>)
    requires Summarises(acc, rows, Width(rows), |rows|, 0)
    requires RowsCleared(mapa, rows, Width(rows), |rows|)
    requires inicial == if acc.jugador.None? then None
      else Some(NewEstado(acc.jugador.value, acc.diamantes, acc.llaves, 0, acc.puertas, {}, acc.rocas, {},
                          acc.botones + acc.estatuas, None, None))
    ensures ParsedFrom(rows, Level(mapa, inicial, acc.salida))
  {
    if acc.jugador.Some? {
      MergeButtons(acc.botones, acc.estatuas, rows, Width(rows));
    }
  }

  /** One pass of the inner loop over row `r`.  `ok` is false when the row is shorter
      than `ancho`: Python's IndexError. */
  method ScanRow(rows: seq<seq<int>>, ancho: nat, r: nat, acc0: Acc) returns (ok: bool, acc: Acc, fila: seq<int>)
    requires r < |rows| && Summarises(acc0, rows, ancho, r, 0)
    ensures ok <==> ancho <= |rows[r]|
    ensures ok ==> fila == ClearRow(rows[r], ancho) && Summarises(acc, rows, ancho, r + 1, 0)
  {
    acc := acc0;
    fila := rows[r];
    for c := 0 to ancho
      invariant c <= |rows[r]|
      invariant fila == ClearRow(rows[r], c)
      invariant Summarises(acc, rows, ancho, r, c)
    {
      if c >= |fila| {
        return false, acc, fila;
      }
      var codigo := fila[c];
      StepSummarises(acc, rows, ancho, r, c);
      ClearRowStep(rows[r], c);
      acc := Visit(acc, codigo, (r, c));
      if codigo == 4 {
        fila := fila[c := 0];
      }
    }
    RowDoneSummarises(acc, rows, ancho, r);
    ok := true;
  }

  /** parse_level after tokenisation: the scan, then the initial state with 0 keys, no
      activated spikes, no filled holes and every button and statue off. */
  method ParseLevel(rows: seq<seq<int>>) returns (res: Result<Level, ParseError>)
    ensures res.Err? <==> !Rect(rows)
    ensures res.Ok? ==> ParsedFrom(rows, res.value)
  {
    var mapa := rows;
    var alto := |rows|;
    var ancho := Width(rows);
    var acc := Acc(None, {}, {}, {}, {}, map[], map[], None);
    StartSummarises(rows, ancho);
    for r := 0 to alto
      invariant WideRows(rows, ancho, r)
      invariant RowsCleared(mapa, rows, ancho, r)
      invariant Summarises(acc, rows, ancho, r, 0)
    {
      var ok, fila;
      ok, acc, fila := ScanRow(rows, ancho, r, acc);
      if !ok {
        assert !(Width(rows) <= |rows[r]|);
        return Err(IndexError);
      }
      RowsClearedStep(mapa, rows, ancho, r, fila);
      mapa := mapa[r := fila];
    }
    var inicial: Option<Estado> := None;
    if acc.jugador.Some? {
      inicial := Some(NewEstado(acc.jugador.value, acc.diamantes, acc.llaves, 0, acc.puertas, {}, acc.rocas, {},
                                acc.botones + acc.estatuas, None, None));
    }
    Finish(acc, rows, mapa, inicial);
    res := Ok(Level(mapa, inicial, acc.salida));
  }
}
