/** diamond_rush.py's cargar_nivel, from the lines of the level file: strip each line,
    group the lines of integers into levels at blank lines, pick one level by Python
    index and scan it for the player, diamonds, stones and the exit. */
module DiamondLevels {
  import opened Wrappers
  import opened GridGeometry
  import opened SolverParse
  import opened DiamondMoves

  // ------------------------------------------------------------ tokenising

  /** The characters `str.isspace` accepts, which `str.strip` and `str.split` remove:
      tab to carriage return, the four separators 0x1C to 0x1F, space, and the Unicode
      spaces. */
  predicate IsSpace(c: char)
  {
    var u := c as int;
    (9 <= u <= 13) || (28 <= u <= 32) || u == 0x85 || u == 0xA0 || u == 0x1680
    || (0x2000 <= u <= 0x200A) || u == 0x2028 || u == 0x2029 || u == 0x202F
    || u == 0x205F || u == 0x3000
  }

  predicate IsDigit(c: char)
  {
    '0' <= c <= '9'
  }

  /** The longest prefix of `s` without whitespace. */
  function Token(s: string): (t: string)
    ensures |t| <= |s| && t == s[..|t|]
    ensures forall i | 0 <= i < |t| :: !IsSpace(t[i])
    ensures |t| < |s| ==> IsSpace(s[|t|])
  {
    if s == [] || IsSpace(s[0]) then [] else [s[0]] + Token(s[1..])
  }

  /** A non-empty run without whitespace. */
  predicate IsWord(t: string)
  {
    t != [] && forall i | 0 <= i < |t| :: !IsSpace(t[i])
  }

  /** The characters of `s` that are not whitespace, in order. */
  function NonSpace(s: string): string
  {
    if s == [] then [] else (if IsSpace(s[0]) then [] else [s[0]]) + NonSpace(s[1..])
  }

  /** Dropping the leading token leaves the rest of the non-whitespace characters. */
  lemma {:induction false} NonSpaceToken(s: string)
    ensures NonSpace(s) == Token(s) + NonSpace(s[|Token(s)|..])
  {
    if s != [] && !IsSpace(s[0]) {
      var r := s[1..];
      NonSpaceToken(r);
      assert r[|Token(r)|..] == s[|Token(s)|..];
    }
  }

  /** `str.split()`: the maximal runs of non-whitespace characters.  Together they are
      the non-whitespace characters of `s`, and a word without whitespace is its only
      token; `SplitAtSpace` shows that every whitespace character separates tokens. */
  function Split(s: string): (ts: seq<string>)
    ensures forall k | 0 <= k < |ts| :: IsWord(ts[k])
    ensures Flatten(ts) == NonSpace(s)
    ensures IsWord(s) ==> ts == [s]
    decreases |s|
  {
    if s == [] then []
    else if IsSpace(s[0]) then Split(s[1..])
    else
      var t := Token(s);
      var rest := Split(s[|t|..]);
      SplitConsStep(s, rest);
      [t] + rest
  }

  /** One step of `Split`: the leading token followed by the tokens of the rest keeps
      all three clauses. */
  lemma SplitConsStep(s: string, rest: seq<string>)
    requires s != [] && !IsSpace(s[0])
    requires forall k | 0 <= k < |rest| :: IsWord(rest[k])
    requires Flatten(rest) == NonSpace(s[|Token(s)|..])
    requires IsWord(s[|Token(s)|..]) ==> rest == [s[|Token(s)|..]]
    ensures forall k | 0 <= k < |[Token(s)] + rest| :: IsWord(([Token(s)] + rest)[k])
    ensures Flatten([Token(s)] + rest) == NonSpace(s)
    ensures IsWord(s) ==> [Token(s)] + rest == [s]
  {
    FlattenCons(Token(s), rest);
    NonSpaceToken(s);
    if IsWord(s) {
      TokenWhole(s);
      assert s[|Token(s)|..] == [];
    }
  }

  /** A word without whitespace is one whole token. */
  lemma {:induction false} TokenWhole(s: string)
    requires forall i | 0 <= i < |s| :: !IsSpace(s[i])
    ensures Token(s) == s
  {
    if s != [] {
      assert forall i | 0 <= i < |s[1..]| :: s[1..][i] == s[i + 1];
      TokenWhole(s[1..]);
    }
  }

  /** `Token` stops at whitespace, so what follows it does not matter. */
  lemma {:induction false} TokenAppend(a: string, r: string)
    requires r == [] || IsSpace(r[0])
    ensures Token(a + r) == Token(a)
  {
    if a == [] {
      assert a + r == r;
    } else if !IsSpace(a[0]) {
      assert (a + r)[1..] == a[1..] + r;
      TokenAppend(a[1..], r);
    }
  }

  /** A whitespace character splits the line in two: the tokens are those before it
      followed by those after it. */
  lemma {:induction false} SplitAtSpace(a: string, c: char, b: string)
    requires IsSpace(c)
    ensures Split(a + [c] + b) == Split(a) + Split(b)
    decreases |a|
  {
    var s := a + [c] + b;
    if a == [] {
      assert s[1..] == b;
    } else if IsSpace(a[0]) {
      assert s[1..] == a[1..] + [c] + b;
      SplitAtSpace(a[1..], c, b);
    } else {
      TokenAppend(a, [c] + b);
      assert s == a + ([c] + b);
      var t := Token(a);
      assert s[|t|..] == a[|t|..] + [c] + b;
      SplitAtSpace(a[|t|..], c, b);
    }
  }

  function DigitValue(c: char): nat
    requires IsDigit(c)
  {
    c as int - '0' as int
  }

  predicate AllDigits(s: string)
  {
    forall i | 0 <= i < |s| :: IsDigit(s[i])
  }

  /** The decimal value of a run of digits, most significant first. */
  function DigitsValue(s: string): nat
    requires AllDigits(s)
  {
    if s == [] then 0 else 10 * DigitsValue(s[..|s| - 1]) + DigitValue(s[|s| - 1])
  }

  /** `int(x)` on one token: an optional sign and at least one digit; anything else is
      a ValueError, here None. */
  function ParseInt(tok: string): Option<int>
  {
    if tok != [] && (tok[0] == '-' || tok[0] == '+') then
      var ds := tok[1..];
      if ds != [] && AllDigits(ds) then
        var v: int := DigitsValue(ds);
        Some(if tok[0] == '-' then -v else v)
      else None
    else if tok != [] && AllDigits(tok) then Some(DigitsValue(tok))
    else None
  }

  /** The decimal digits of `n`, as `str` writes them. */
  function ShowNat(n: nat): (s: string)
    ensures s != [] && AllDigits(s)
  {
    var d := ['0' + (n % 10) as char];
    if n < 10 then d else ShowNat(n / 10) + d
  }

  function ShowInt(n: int): string
  {
    if n < 0 then "-" + ShowNat(-n) else ShowNat(n)
  }

  lemma {:induction false} DigitsOfShow(n: nat)
    ensures DigitsValue(ShowNat(n)) == n
  {
    var s := ShowNat(n);
    if n >= 10 {
      DigitsOfShow(n / 10);
      assert s[..|s| - 1] == ShowNat(n / 10);
    }
  }

  /** `int(str(n)) == n`. */
  lemma ParseShow(n: int)
    ensures ParseInt(ShowInt(n)) == Some(n)
  {
    if n < 0 {
      DigitsOfShow(-n);
      assert ShowInt(n)[1..] == ShowNat(-n);
    } else {
      DigitsOfShow(n);
    }
  }

  /** `[int(x) for x in tokens]`, None when some token raises ValueError. */
  function ParseRow(tokens: seq<string>): (r: Option<seq<int>>)
    ensures r.Some? ==> |r.value| == |tokens| && forall k | 0 <= k < |tokens| :: ParseInt(tokens[k]) == Some(r.value[k])
    ensures r.None? ==> exists k | 0 <= k < |tokens| :: ParseInt(tokens[k]).None?
  {
    if tokens == [] then Some([])
    else
      match (ParseInt(tokens[0]), ParseRow(tokens[1..]))
      case (Some(v), Some(rest)) => Some([v] + rest)
      case (None, _) => None
      case (_, None) =>
        assert forall k | 0 <= k < |tokens| - 1 :: tokens[1..][k] == tokens[k + 1];
        None
  }

  /** What the loop body does with one line. */
  datatype LineKind = Blank | Skipped | Row(fila: seq<int>)

  function Classify(linea: string): (k: LineKind)
    ensures k.Blank? <==> forall i | 0 <= i < |linea| :: IsSpace(linea[i])
    ensures k.Row? ==> exists i | 0 <= i < |linea| :: IsDigit(linea[i])
    ensures k.Row? ==> ParseRow(Split(linea)) == Some(k.fila)
    ensures (exists i | 0 <= i < |linea| :: IsDigit(linea[i])) && ParseRow(Split(linea)).Some? ==>
      k == Row(ParseRow(Split(linea)).value)
  {
    if forall i | 0 <= i < |linea| :: IsSpace(linea[i]) then Blank
    else if !exists i | 0 <= i < |linea| :: IsDigit(linea[i]) then Skipped
    else
      match ParseRow(Split(linea))
      case None => Skipped
      case Some(fila) => Row(fila)
  }

  // -------------------------------------------------------------- grouping

  datatype Grouping = Grouping(niveles: seq<seq<seq<int>>>, actual: seq<seq<int>>)

  /** One iteration of the grouping loop. */
  function GroupStep(g: Grouping, linea: string): Grouping
  {
    match Classify(linea)
    case Blank => if g.actual != [] then Grouping(g.niveles + [g.actual], []) else g
    case Skipped => g
    case Row(fila) => g.(actual := g.actual + [fila])
  }

  /** The grouping loop run over `lines` from the state `g`. */
  function GroupFrom(g: Grouping, lines: seq<string>): Grouping
  {
    if lines == [] then g else GroupStep(GroupFrom(g, lines[..|lines| - 1]), lines[|lines| - 1])
  }

  function Group(lines: seq<string>): Grouping
  {
    if lines == [] then Grouping([], []) else GroupStep(Group(lines[..|lines| - 1]), lines[|lines| - 1])
  }

  /** `Group` is the loop run from the empty state. */
  lemma {:induction false} GroupIsFromEmpty(lines: seq<string>)
    ensures Group(lines) == GroupFrom(Grouping([], []), lines)
  {
    if lines != [] {
      GroupIsFromEmpty(lines[..|lines| - 1]);
    }
  }

  /** `niveles` after the loop and the final append. */
  function Levels(lines: seq<string>): seq<seq<seq<int>>>
  {
    var g := Group(lines);
    if g.actual != [] then g.niveles + [g.actual] else g.niveles
  }

  /** The grouping loop of cargar_nivel. */
  method GroupLevels(contenido: seq<string>) returns (niveles: seq<seq<seq<int>>>)
    ensures niveles == Levels(contenido)
  {
    niveles := [];
    var nivelActual: seq<seq<int>> := [];
    for i := 0 to |contenido|
      invariant Grouping(niveles, nivelActual) == Group(contenido[..i])
    {
      assert contenido[..i + 1][..i] == contenido[..i];
      var linea := contenido[i];
      var kind := Classify(linea);
      if kind.Blank? {
        if nivelActual != [] {
          niveles := niveles + [nivelActual];
          nivelActual := [];
        }
      } else if kind.Row? {
        nivelActual := nivelActual + [kind.fila];
      }
    }
    assert contenido[..|contenido|] == contenido;
    if nivelActual != [] {
      niveles := niveles + [nivelActual];
    }
  }

  function Flatten<T>(xs: seq<seq<T>>): seq<T>
  {
    if xs == [] then [] else Flatten(xs[..|xs| - 1]) + xs[|xs| - 1]
  }

  lemma {:induction false} FlattenCons<T>(x: seq<T>, xs: seq<seq<T>>)
    ensures Flatten([x] + xs) == x + Flatten(xs)
    decreases |xs|
  {
    if xs != [] {
      var init := xs[..|xs| - 1];
      assert ([x] + xs)[..|xs|] == [x] + init;
      FlattenCons(x, init);
    }
  }

  /** The rows of all lines that hold integers, in file order. */
  function Rows(lines: seq<string>): seq<seq<int>>
  {
    if lines == [] then []
    else
      Rows(lines[..|lines| - 1])
      + match Classify(lines[|lines| - 1]) case Row(fila) => [fila] case _ => []
  }

  function Blanks(lines: seq<string>): nat
  {
    if lines == [] then 0
    else Blanks(lines[..|lines| - 1]) + if Classify(lines[|lines| - 1]).Blank? then 1 else 0
  }

  lemma FlattenSnoc<T>(xs: seq<seq<T>>, x: seq<T>)
    ensures Flatten(xs + [x]) == Flatten(xs) + x
  {
    assert (xs + [x])[..|xs|] == xs;
  }

  /** A line with a non-whitespace character has a token. */
  lemma {:induction false} SplitNonEmpty(s: string, i: nat)
    requires i < |s| && !IsSpace(s[i])
    ensures Split(s) != []
    decreases i
  {
    if IsSpace(s[0]) {
      SplitNonEmpty(s[1..], i - 1);
    }
  }

  /** A line of integers gives a non-empty row. */
  lemma RowNonEmpty(linea: string)
    requires Classify(linea).Row?
    ensures Classify(linea).fila != []
  {
    var i :| 0 <= i < |linea| && IsDigit(linea[i]);
    SplitNonEmpty(linea, i);
  }

  /** The rows read so far are the finished levels followed by the open one. */
  lemma {:induction false} GroupRows(lines: seq<string>)
    ensures Flatten(Group(lines).niveles) + Group(lines).actual == Rows(lines)
  {
    if lines != [] {
      var init := lines[..|lines| - 1];
      GroupRows(init);
      var g := Group(init);
      match Classify(lines[|lines| - 1])
      case Blank =>
        if g.actual != [] {
          FlattenSnoc(g.niveles, g.actual);
        }
      case Skipped =>
      case Row(fila) =>
        assert Flatten(g.niveles) + (g.actual + [fila]) == (Flatten(g.niveles) + g.actual) + [fila];
    }
  }

  /** No level and no row is empty. */
  ghost predicate NonEmptyParts(g: Grouping)
  {
    (forall k | 0 <= k < |g.niveles| :: g.niveles[k] != [])
    && (forall k | 0 <= k < |g.actual| :: g.actual[k] != [])
    && (forall k, q | 0 <= k < |g.niveles| && 0 <= q < |g.niveles[k]| :: g.niveles[k][q] != [])
  }

  lemma {:induction false} GroupNonEmpty(lines: seq<string>)
    ensures NonEmptyParts(Group(lines))
  {
    if lines != [] {
      var last := lines[|lines| - 1];
      GroupNonEmpty(lines[..|lines| - 1]);
      if Classify(last).Row? {
        RowNonEmpty(last);
      }
    }
  }

  /** A level closes only at a blank line, and a blank line closes the open level: the
      finished levels change only there, where they become the levels read so far, and
      there are at most as many of them as blank lines. */
  lemma {:induction false} GroupCount(lines: seq<string>)
    ensures |Group(lines).niveles| <= Blanks(lines)
    ensures lines != [] && Classify(lines[|lines| - 1]).Blank? ==>
      Group(lines) == Grouping(Levels(lines[..|lines| - 1]), [])
    ensures lines != [] && !Classify(lines[|lines| - 1]).Blank? ==>
      Group(lines).niveles == Group(lines[..|lines| - 1]).niveles
  {
    if lines != [] {
      GroupCount(lines[..|lines| - 1]);
    }
  }

  /** Running the loop over `a + b` is running it over `a`, then over `b`. */
  lemma {:induction false} GroupFromAppend(g: Grouping, a: seq<string>, b: seq<string>)
    ensures GroupFrom(g, a + b) == GroupFrom(GroupFrom(g, a), b)
    decreases |b|
  {
    if b == [] {
      assert a + b == a;
    } else {
      var init := b[..|b| - 1];
      assert (a + b)[..|a + b| - 1] == a + init;
      GroupFromAppend(g, a, init);
    }
  }

  /** From finished levels `done` and no open level, the loop only adds levels after
      `done`. */
  lemma {:induction false} GroupFromClosed(done: seq<seq<seq<int>>>, b: seq<string>)
    ensures GroupFrom(Grouping(done, []), b) == Grouping(done + Group(b).niveles, Group(b).actual)
    decreases |b|
  {
    GroupIsFromEmpty(b);
    if b != [] {
      var init := b[..|b| - 1];
      GroupFromClosed(done, init);
      GroupIsFromEmpty(init);
      var g := Group(init);
      if Classify(b[|b| - 1]).Blank? && g.actual != [] {
        assert done + g.niveles + [g.actual] == done + (g.niveles + [g.actual]);
      }
    }
  }

  /** A blank line separates levels: the levels of `a`, the blank line and `b` are those
      of `a` followed by those of `b`. */
  lemma LevelsSplit(a: seq<string>, blank: string, b: seq<string>)
    requires Classify(blank).Blank?
    ensures Levels(a + [blank] + b) == Levels(a) + Levels(b)
  {
    GroupIsFromEmpty(a + [blank] + b);
    GroupIsFromEmpty(a + [blank]);
    GroupFromAppend(Grouping([], []), a + [blank], b);
    assert (a + [blank])[..|a|] == a;
    GroupFromClosed(Levels(a), b);
  }

  /** Without blank lines everything read is one level, or none if no line holds
      integers. */
  lemma {:induction false} LevelsNoBlank(lines: seq<string>)
    requires Blanks(lines) == 0
    ensures Levels(lines) == if Rows(lines) == [] then [] else [Rows(lines)]
    ensures Group(lines) == Grouping([], Rows(lines))
  {
    if lines != [] {
      var init := lines[..|lines| - 1];
      var last := lines[|lines| - 1];
      LevelsNoBlank(init);
      assert Group(lines) == GroupStep(Group(init), last);
      match Classify(last)
      case Skipped =>
      case Row(fila) =>
    }
    assert Group(lines) == Grouping([], Rows(lines));
  }

  /** Every level and every row in it is non-empty; together the levels hold exactly the
      lines of integers, in order; and only a blank line ends a level, so there are at
      most one more levels than blank lines; with no blank line at all, the lines of
      integers form a single level.  `LevelsSplit` covers the blank lines themselves. */
  lemma LevelsProperties(lines: seq<string>)
    ensures forall k | 0 <= k < |Levels(lines)| :: Levels(lines)[k] != []
    ensures forall k, q | 0 <= k < |Levels(lines)| && 0 <= q < |Levels(lines)[k]| :: Levels(lines)[k][q] != []
    ensures Flatten(Levels(lines)) == Rows(lines)
    ensures |Levels(lines)| <= Blanks(lines) + 1
    ensures Blanks(lines) == 0 ==> Levels(lines) == if Rows(lines) == [] then [] else [Rows(lines)]
  {
    if Blanks(lines) == 0 {
      LevelsNoBlank(lines);
    }
    GroupRows(lines);
    GroupNonEmpty(lines);
    GroupCount(lines);
    var g := Group(lines);
    if g.actual != [] {
      FlattenSnoc(g.niveles, g.actual);
    }
  }

  // --------------------------------------------------------------- loading

  datatype LoadError = IndexError | ValueError

  /** `(matriz, estado_inicial, salida)`.  `inicial` is None when the level has no player:
      Python then builds a `GameState` whose `player` is None, which the search cannot use. */
  datatype Loaded = Loaded(matriz: seq<seq<int>>, inicial: Option<GameState>, salida: Pos)

  /** `niveles[indice]` with Python's negative indices; None for an IndexError. */
  function Select(niveles: seq<seq<seq<int>>>, indice: int): (r: Option<seq<seq<int>>>)
    ensures r.Some? <==> -|niveles| <= indice < |niveles|
    ensures 0 <= indice < |niveles| ==> r == Some(niveles[indice])
    ensures -|niveles| <= indice < 0 ==> r == Some(niveles[|niveles| + indice])
  {
    if 0 <= indice < |niveles| then Some(niveles[indice])
    else if -|niveles| <= indice < 0 then Some(niveles[|niveles| + indice])
    else None
  }

  /** No scanned cell is the exit. */
  ghost predicate NoExit(rows: seq<seq<int>>)
  {
    LastSummarises(None, rows, Width(rows), |rows|, 0, 8)
  }

  /** What cargar_nivel returns for a well-shaped level with an exit: the matrix as read,
      the last exit and the last player in scan order, and a start state with the
      diamonds and stones of the level and nothing used, filled, held or opened. */
  ghost predicate LoadedFrom(rows: seq<seq<int>>, lvl: Loaded)
  {
    var w := Width(rows);
    var n := |rows|;
    lvl.matriz == rows
    && LastSummarises(Some(lvl.salida), rows, w, n, 0, 8)
    && match lvl.inicial
       case None => LastSummarises(None, rows, w, n, 0, 4)
       case Some(st) =>
         LastSummarises(Some(st.player), rows, w, n, 0, 4)
         && SetSummarises(st.remainingDiamonds, rows, w, n, 0, 2)
         && SetSummarises(st.stonePositions, rows, w, n, 0, 6)
         && st.usedSpikes == {} && st.filledHoles == {} && !st.hasKey && st.openedDoors == {}
  }

  /** The collections the scan fills and the return value uses; the spike and hole lists
      it also fills are never read. */
  datatype Scan = Scan(jugador: Option<Pos>, diamantes: set<Pos>, piedras: set<Pos>, salida: Option<Pos>)

  ghost predicate ScanSummarises(acc: Scan, rows: seq<seq<int>>, w: nat, r: int, c: int)
  {
    LastSummarises(acc.jugador, rows, w, r, c, 4)
    && LastSummarises(acc.salida, rows, w, r, c, 8)
    && SetSummarises(acc.diamantes, rows, w, r, c, 2)
    && SetSummarises(acc.piedras, rows, w, r, c, 6)
  }

  /** The `if`/`elif` chain on one cell. */
  function Visit(acc: Scan, celda: int, p: Pos): Scan
  {
    if celda == 4 then acc.(jugador := Some(p))
    else if celda == 2 then acc.(diamantes := acc.diamantes + {p})
    else if celda == 6 then acc.(piedras := acc.piedras + {p})
    else if celda == 8 then acc.(salida := Some(p))
    else acc
  }

  lemma VisitSummarises(acc: Scan, rows: seq<seq<int>>, w: nat, r: int, c: int)
    requires Cell(rows, w, r, c) && ScanSummarises(acc, rows, w, r, c)
    ensures ScanSummarises(Visit(acc, rows[r][c], (r, c)), rows, w, r, c + 1)
  {
    LastStep(acc.jugador, rows, w, r, c, 4);
    LastStep(acc.salida, rows, w, r, c, 8);
    SetStep(acc.diamantes, rows, w, r, c, 2);
    SetStep(acc.piedras, rows, w, r, c, 6);
  }

  /** The inner loop over row `r`; false when the row is shorter than `cols`. */
  method ScanLevelRow(matriz: seq<seq<int>>, cols: nat, r: nat, acc0: Scan) returns (ok: bool, acc: Scan)
    requires r < |matriz| && ScanSummarises(acc0, matriz, cols, r, 0)
    ensures ok <==> cols <= |matriz[r]|
    ensures ok ==> ScanSummarises(acc, matriz, cols, r + 1, 0)
  {
    acc := acc0;
    for j := 0 to cols
      invariant j <= |matriz[r]|
      invariant ScanSummarises(acc, matriz, cols, r, j)
    {
      if j >= |matriz[r]| {
        return false, acc;
      }
      VisitSummarises(acc, matriz, cols, r, j);
      acc := Visit(acc, matriz[r][j], (r, j));
    }
    RowDone(matriz, cols, r);
    ok := true;
  }

  /** cargar_nivel on the lines of the file.  IndexError for a level index out of range
      or a row shorter than the first; ValueError for a level without an exit. */
  method LoadLevel(contenido: seq<string>, indice: int) returns (res: Result<Loaded, LoadError>)
    ensures var sel := Select(Levels(contenido), indice);
      (res == Err(LoadError.IndexError) <==> sel.None? || !Rect(sel.value))
      && (res == Err(ValueError) <==> sel.Some? && Rect(sel.value) && NoExit(sel.value))
      && (res.Ok? ==> sel.Some? && LoadedFrom(sel.value, res.value))
  {
    var niveles := GroupLevels(contenido);
    var sel := Select(niveles, indice);
    if sel.None? {
      return Err(LoadError.IndexError);
    }
    var matriz := sel.value;
    var filas := |matriz|;
    var cols := if filas > 0 then |matriz[0]| else 0;
    var acc := Scan(None, {}, {}, None);
    for i := 0 to filas
      invariant forall k | 0 <= k < i :: cols <= |matriz[k]|
      invariant ScanSummarises(acc, matriz, cols, i, 0)
    {
      var ok;
      ok, acc := ScanLevelRow(matriz, cols, i, acc);
      if !ok {
        return Err(LoadError.IndexError);
      }
    }
    if acc.salida.None? {
      return Err(ValueError);
    }
    var inicial: Option<GameState> := None;
    if acc.jugador.Some? {
      inicial := Some(GameState(acc.jugador.value, acc.diamantes, acc.piedras, {}, {}, false, {}));
    }
    res := Ok(Loaded(matriz, inicial, acc.salida.value));
  }

  /** A loaded level is a well-shaped grid whose start state has its stones on the board
      and no filled hole, as the move rules need. */
  lemma LoadedIsPlayable(rows: seq<seq<int>>, lvl: Loaded)
    requires Rect(rows) && LoadedFrom(rows, lvl) && lvl.inicial.Some?
    ensures Grid(lvl.matriz) && StonesInBounds(lvl.inicial.value, lvl.matriz)
    ensures lvl.inicial.value.filledHoles == {}
    ensures InBounds(lvl.matriz, lvl.salida) && Tile(lvl.matriz, lvl.salida) == 8
  {
    var st := lvl.inicial.value;
    forall s | s in st.stonePositions
      ensures InBounds(lvl.matriz, s)
    {
      assert (s.0, s.1) in st.stonePositions;
    }
  }
}
